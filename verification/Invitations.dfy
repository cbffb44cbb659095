/** One member invitation under any number of concurrent callers. Each operation reads the row, decides, and writes it
    back only if its identifier is still the text it read; other callers and crashes come in between. */
module Invitations {
  import opened Basics

  /** A salted password hash verifies exactly its own credential; a digest identifies the text it is of. */
  datatype Hash = Hash(credential: string, salt: nat)
  datatype Digest = Digest(text: string)

  datatype Status = Pending | Delivered | Accepted | Revoked

  datatype Identity = Identity(organization: string, user: string, email: string)

  datatype Invitation = Invitation(
    identity: Identity, status: Status, expiresAt: int, deliveredAt: Option<int>, acceptedAt: Option<int>, updatedAt: int)

  /** What the identifier column holds. `digest` is the credential digest of older rows. */
  datatype Envelope = Envelope(invitation: Invitation, hash: Option<Hash>, digest: Option<Digest>, usedAt: Option<int>)

  datatype Row = Row(envelope: Envelope, token: Digest, expiresAt: int)

  datatype SetupClaim = SetupClaim(identity: Identity, token: Digest, expiresAt: int)

  datatype Operation =
    | Deliver(at: int)
    | Revoke(at: int)
    | Claim(credential: string, at: int, salt: nat)
    | Issue(identity: Identity, expiresAt: int, token: string)
    | Finalize(claim: SetupClaim, at: int)

  /** `Listed` is a revocation before its own read; `Writing` holds the identifier that was read. */
  datatype Pc = Starting | Listed | Writing(seen: Envelope) | Done(ok: bool)

  datatype Actor = Actor(op: Operation, pc: Pc)

  datatype Success = Claimed(credential: string) | Finalized

  datatype Sys = Sys(row: Row, actors: map<nat, Actor>, log: seq<Success>)

  datatype Event = Call(id: nat, op: Operation) | List(id: nat) | Read(id: nat) | Write(id: nat) | Crash(id: nat)

  /** Parsing refuses an envelope with both a hash and a digest. */
  predicate Parses(e: Envelope)
  {
    e.hash.None? || e.digest.None?
  }

  predicate Open(e: Envelope)
  {
    e.invitation.status == Pending || e.invitation.status == Delivered
  }

  /** An accepted invitation whose stored credential is this one. */
  predicate Verifies(e: Envelope, credential: string)
  {
    e.invitation.status == Accepted && e.hash.Some? && e.hash.value.credential == credential
  }

  /** The operation's checks on the row it read, up to its write. */
  predicate MayWrite(op: Operation, row: Row)
  {
    var e := row.envelope;
    && Parses(e)
    && match op
       case Deliver(_) => e.invitation.status == Pending
       case Revoke(_) => true
       case Claim(credential, _, _) =>
         if e.invitation.status == Accepted
         then e.hash.None? && e.digest == Some(Digest(credential))
         else Open(e)
       case Issue(identity, expiresAt, _) =>
         && e.invitation.identity == identity
         && e.invitation.expiresAt == expiresAt
         && e.invitation.status == Pending
         && e.digest.None?
         && e.usedAt.None?
       case Finalize(claim, _) =>
         && row.token == claim.token
         && e.usedAt.None?
         && e.invitation.identity == claim.identity
         && e.invitation.expiresAt == row.expiresAt == claim.expiresAt
         && e.invitation.status == Accepted
  }

  function Written(op: Operation, row: Row, e: Envelope): Row
  {
    match op
    case Deliver(at) =>
      var invitation := e.invitation.(status := Delivered, deliveredAt := Some(at), updatedAt := at);
      row.(envelope := e.(invitation := invitation), expiresAt := invitation.expiresAt)
    case Revoke(at) =>
      row.(envelope := e.(invitation := e.invitation.(status := Revoked, updatedAt := at)), expiresAt := e.invitation.expiresAt)
    case Claim(credential, at, salt) =>
      if e.invitation.status == Accepted
      then row.(envelope := e.(hash := Some(Hash(credential, salt)), digest := None))
      else
        var invitation := e.invitation.(status := Accepted, acceptedAt := Some(at), updatedAt := at);
        row.(envelope := e.(invitation := invitation, hash := Some(Hash(credential, salt)), digest := None),
             expiresAt := invitation.expiresAt)
    case Issue(_, expiresAt, token) => row.(token := Digest(token), expiresAt := expiresAt)
    case Finalize(_, at) => row.(envelope := e.(usedAt := Some(at), hash := None, digest := None))
  }

  /** The condition of the UPDATE statement. */
  predicate StillThere(op: Operation, row: Row, seen: Envelope)
  {
    row.envelope == seen && (op.Finalize? ==> row.token == op.claim.token)
  }

  function Recorded(op: Operation): seq<Success>
  {
    match op
    case Claim(credential, _, _) => [Claimed(credential)]
    case Finalize(_, _) => [Finalized]
    case _ => []
  }

  function At(s: Sys, id: nat, pc: Pc): Sys
  {
    if id in s.actors then s.(actors := s.actors[id := s.actors[id].(pc := pc)]) else s
  }

  /** The list a revocation starts from skips invitations that are not open; later it revokes whatever it finds. */
  function DoList(s: Sys, id: nat): Sys
  {
    if Parses(s.row.envelope) && Open(s.row.envelope) then At(s, id, Listed) else At(s, id, Done(false))
  }

  function DoRead(s: Sys, id: nat, op: Operation): Sys
  {
    if op.Claim? && Parses(s.row.envelope) && Verifies(s.row.envelope, op.credential)
    then At(s.(log := s.log + [Claimed(op.credential)]), id, Done(true))
    else if MayWrite(op, s.row) then At(s, id, Writing(s.row.envelope))
    else At(s, id, Done(false))
  }

  function DoWrite(s: Sys, id: nat, op: Operation, seen: Envelope): Sys
  {
    if StillThere(op, s.row, seen)
    then At(s.(row := Written(op, s.row, seen), log := s.log + Recorded(op)), id, Done(true))
    else At(s, id, Done(false))
  }

  function Step(s: Sys, e: Event): Sys
  {
    if e.Call? then
      if e.id in s.actors then s else s.(actors := s.actors[e.id := Actor(e.op, Starting)])
    else if e.id !in s.actors then s
    else
      var a := s.actors[e.id];
      match e
      case List(id) => if a.op.Revoke? && a.pc.Starting? then DoList(s, id) else s
      case Read(id) => if (if a.op.Revoke? then a.pc.Listed? else a.pc.Starting?) then DoRead(s, id, a.op) else s
      case Write(id) => if a.pc.Writing? then DoWrite(s, id, a.op, a.pc.seen) else s
      case Crash(id) => s.(actors := s.actors - {id})
  }

  function ExecFrom(s: Sys, events: seq<Event>): Sys
  {
    if events == [] then s else Step(ExecFrom(s, events[..|events| - 1]), events[|events| - 1])
  }

  function Start(row: Row): Sys
  {
    Sys(row, map[], [])
  }

  // ---------------------------------------------------------------------------------------------
  // Invariant
  // ---------------------------------------------------------------------------------------------

  ghost predicate ClaimsAgree(log: seq<Success>)
  {
    forall i, j :: 0 <= i < |log| && 0 <= j < |log| && log[i].Claimed? && log[j].Claimed? ==> log[i] == log[j]
  }

  ghost predicate NotFinalized(log: seq<Success>)
  {
    forall i :: 0 <= i < |log| ==> log[i].Claimed?
  }

  /** At most the last entry is a finalization. */
  ghost predicate FinalizedLast(log: seq<Success>)
  {
    forall i :: 0 <= i < |log| && log[i].Finalized? ==> i == |log| - 1
  }

  /** The row and the successes so far. */
  ghost predicate RowOk(e: Envelope, log: seq<Success>)
  {
    && (Open(e) ==> log == [] && e.usedAt.None?)
    && (e.invitation.status == Accepted && e.usedAt.None? && log != [] ==>
          e.hash.Some? && forall i :: 0 <= i < |log| ==> log[i] == Claimed(e.hash.value.credential))
    && (e.invitation.status == Accepted && e.usedAt.Some? ==> e.hash.None? && e.digest.None?)
    && (e.usedAt.None? ==> NotFinalized(log))
    && FinalizedLast(log)
    && ClaimsAgree(log)
  }

  /** An operation about to write passed its checks on the identifier it saw, apart from the token and expiry columns. */
  ghost predicate ActorOk(a: Actor)
  {
    a.pc.Writing? ==>
      exists token, expiresAt :: MayWrite(a.op, Row(a.pc.seen, token, expiresAt))
  }

  ghost predicate Invariant(s: Sys)
  {
    RowOk(s.row.envelope, s.log) && forall id :: id in s.actors ==> ActorOk(s.actors[id])
  }

  /** An invitation whose setup was not finalized yet. */
  ghost predicate Fresh(row: Row)
  {
    row.envelope.usedAt.None?
  }

  lemma StartIsOk(row: Row)
    requires Fresh(row)
    ensures Invariant(Start(row))
  {
  }

  lemma WriteKeepsRow(op: Operation, row: Row, seen: Envelope, log: seq<Success>)
    requires RowOk(row.envelope, log) && StillThere(op, row, seen)
    requires exists token, expiresAt :: MayWrite(op, Row(seen, token, expiresAt))
    ensures RowOk(Written(op, row, seen).envelope, log + Recorded(op))
  {
    var token, expiresAt :| MayWrite(op, Row(seen, token, expiresAt));
    assert log + [] == log;
  }

  lemma StepKeeps(s: Sys, e: Event)
    requires Invariant(s)
    ensures Invariant(Step(s, e))
  {
    hide MayWrite, RowOk, Written, StillThere;
    if !e.Call? && e.id in s.actors {
      var a := s.actors[e.id];
      assert ActorOk(a);
      if e.Write? && a.pc.Writing? && StillThere(a.op, s.row, a.pc.seen) {
        WriteKeepsRow(a.op, s.row, a.pc.seen, s.log);
      }
      if e.Read? {
        assert MayWrite(a.op, s.row) ==> MayWrite(a.op, Row(s.row.envelope, s.row.token, s.row.expiresAt));
        if a.op.Claim? && Verifies(s.row.envelope, a.op.credential) {
          VerifiedKeepsRow(s.row.envelope, a.op.credential, s.log);
        }
      }
    }
  }

  lemma VerifiedKeepsRow(e: Envelope, credential: string, log: seq<Success>)
    requires RowOk(e, log) && Verifies(e, credential)
    ensures RowOk(e, log + [Claimed(credential)])
  {
  }

  lemma {:induction false} RunKeeps(s: Sys, events: seq<Event>)
    requires Invariant(s)
    ensures Invariant(ExecFrom(s, events))
  {
    hide Invariant, Step;
    if events != [] {
      RunKeeps(s, events[..|events| - 1]);
      StepKeeps(ExecFrom(s, events[..|events| - 1]), events[|events| - 1]);
    }
  }

  // ---------------------------------------------------------------------------------------------
  // What the compare-and-swap guarantees
  // ---------------------------------------------------------------------------------------------

  /** The credentials an invitation lets in: any while it is open, once accepted the one its hash or, in an older row,
      its digest is of, and none after revocation. */
  predicate LetsIn(e: Envelope, credential: string)
  {
    match e.invitation.status
    case Accepted => if e.hash.Some? then e.hash.value.credential == credential else e.digest == Some(Digest(credential))
    case Revoked => false
    case _ => true
  }

  /** The row lets in no credential the first row did not, and no other was ever claimed. */
  ghost predicate LetIn(first: Envelope, s: Sys)
  {
    && (forall credential :: LetsIn(s.row.envelope, credential) ==> LetsIn(first, credential))
    && (forall i :: 0 <= i < |s.log| && s.log[i].Claimed? ==> LetsIn(first, s.log[i].credential))
  }

  lemma LetInWrite(op: Operation, row: Row, seen: Envelope, credential: string)
    requires StillThere(op, row, seen) && exists token, expiresAt :: MayWrite(op, Row(seen, token, expiresAt))
    ensures LetsIn(Written(op, row, seen).envelope, credential) ==> LetsIn(row.envelope, credential)
    ensures op.Claim? ==> LetsIn(row.envelope, op.credential)
  {
    var token, expiresAt :| MayWrite(op, Row(seen, token, expiresAt));
  }

  lemma LetInStep(first: Envelope, s: Sys, e: Event)
    requires Invariant(s) && LetIn(first, s)
    ensures LetIn(first, Step(s, e))
  {
    hide MayWrite, RowOk, Written, StillThere, Parses;
    if !e.Call? && e.id in s.actors {
      var a := s.actors[e.id];
      assert ActorOk(a);
      if e.Write? && a.pc.Writing? && StillThere(a.op, s.row, a.pc.seen) {
        forall credential
          ensures LetsIn(Written(a.op, s.row, a.pc.seen).envelope, credential) ==> LetsIn(s.row.envelope, credential)
          ensures a.op.Claim? ==> LetsIn(s.row.envelope, a.op.credential)
        {
          LetInWrite(a.op, s.row, a.pc.seen, credential);
        }
      }
    }
  }

  lemma {:induction false} LetInRun(row: Row, events: seq<Event>)
    requires Fresh(row)
    ensures LetIn(row.envelope, ExecFrom(Start(row), events))
  {
    hide Step, Invariant, LetsIn;
    if events != [] {
      var init := events[..|events| - 1];
      LetInRun(row, init);
      StartIsOk(row);
      RunKeeps(Start(row), init);
      LetInStep(row.envelope, ExecFrom(Start(row), init), events[|events| - 1]);
    }
  }

  /** However the callers interleave: the setup is finalized at most once and nobody succeeds after that; all successful
      claims presented the same credential; and where the row already held a hash or an older digest, it was the
      credential of that hash or digest. */
  lemma OneCredentialOneSetup(row: Row, events: seq<Event>)
    requires Fresh(row)
    ensures var log := ExecFrom(Start(row), events).log;
            && (forall i, j :: 0 <= i < |log| && 0 <= j < |log| && log[i].Claimed? && log[j].Claimed? ==>
                  log[i].credential == log[j].credential)
            && (forall i :: 0 <= i < |log| && log[i].Finalized? ==> i == |log| - 1)
            && (forall i :: 0 <= i < |log| && log[i].Claimed? && row.envelope.invitation.status == Accepted ==>
                  if row.envelope.hash.Some? then row.envelope.hash.value.credential == log[i].credential
                  else row.envelope.digest == Some(Digest(log[i].credential)))
  {
    hide ExecFrom;
    StartIsOk(row);
    RunKeeps(Start(row), events);
    LetInRun(row, events);
  }

  /** The invitation is over: its setup was finalized, or it was revoked. */
  predicate Closed(e: Envelope)
  {
    e.usedAt.Some? || e.invitation.status == Revoked
  }

  /** What stays when a closed invitation changes: the time of use, a revocation, and the successes. */
  ghost predicate StaysClosed(s: Sys, t: Sys)
  {
    && t.row.envelope.usedAt == s.row.envelope.usedAt
    && (s.row.envelope.invitation.status == Revoked ==> t.row.envelope.invitation.status == Revoked)
    && t.log == s.log
  }

  lemma ClosedStep(s: Sys, e: Event)
    requires Invariant(s) && Closed(s.row.envelope)
    ensures StaysClosed(s, Step(s, e))
  {
    hide Parses;
    if !e.Call? && e.id in s.actors {
      var a := s.actors[e.id];
      if e.Write? && a.pc.Writing? && StillThere(a.op, s.row, a.pc.seen) {
        assert ActorOk(a);
      }
    }
  }

  /** Finalization and revocation are for good: the time of use is never cleared or moved, a revoked invitation stays
      revoked, and no claim or finalization succeeds any more, not even one that had already read the row. */
  lemma {:induction false} ClosedForGood(row: Row, events: seq<Event>, more: seq<Event>)
    requires Fresh(row) && Closed(ExecFrom(Start(row), events).row.envelope)
    ensures StaysClosed(ExecFrom(Start(row), events), ExecFrom(ExecFrom(Start(row), events), more))
  {
    hide Step, Invariant;
    StartIsOk(row);
    RunKeeps(Start(row), events);
    var s := ExecFrom(Start(row), events);
    if more != [] {
      ClosedForGood(row, events, more[..|more| - 1]);
      RunKeeps(s, more[..|more| - 1]);
      ClosedStep(ExecFrom(s, more[..|more| - 1]), more[|more| - 1]);
    }
  }

  /** Between the first claim and the end of the invitation, a claim is let through exactly when it presents the
      credential of the first, which the row before the run let in. */
  lemma RetriesNeedTheSameCredential(row: Row, events: seq<Event>, credential: string)
    requires Fresh(row)
    requires var s := ExecFrom(Start(row), events); s.log != [] && !Closed(s.row.envelope)
    ensures var s := ExecFrom(Start(row), events);
            && s.log[0].Claimed?
            && LetsIn(row.envelope, s.log[0].credential)
            && (Verifies(s.row.envelope, credential) <==> credential == s.log[0].credential)
            && !MayWrite(Claim(credential, 0, 0), s.row)
  {
    hide ExecFrom;
    StartIsOk(row);
    RunKeeps(Start(row), events);
    LetInRun(row, events);
    var s := ExecFrom(Start(row), events);
    assert s.log[0].Claimed?;
  }

  /** A setup is finalized only after a claim, unless the invitation was accepted before the run. */
  ghost predicate ClaimedFirst(s: Sys)
  {
    && (s.row.envelope.invitation.status == Accepted ==> s.log != [])
    && (forall i :: 0 <= i < |s.log| && s.log[i].Finalized? ==> i > 0 && s.log[0].Claimed?)
  }

  lemma ClaimedFirstStep(s: Sys, e: Event)
    requires Invariant(s) && ClaimedFirst(s)
    ensures ClaimedFirst(Step(s, e))
  {
    if !e.Call? && e.id in s.actors {
      var a := s.actors[e.id];
      if e.Write? && a.pc.Writing? && StillThere(a.op, s.row, a.pc.seen) {
        assert ActorOk(a);
        var token, expiresAt :| MayWrite(a.op, Row(a.pc.seen, token, expiresAt));
      }
    }
  }

  lemma {:induction false} FinalizedAfterClaim(row: Row, events: seq<Event>)
    requires Fresh(row) && row.envelope.invitation.status != Accepted
    ensures ClaimedFirst(ExecFrom(Start(row), events))
  {
    hide Step, Invariant;
    if events != [] {
      FinalizedAfterClaim(row, events[..|events| - 1]);
      StartIsOk(row);
      RunKeeps(Start(row), events[..|events| - 1]);
      ClaimedFirstStep(ExecFrom(Start(row), events[..|events| - 1]), events[|events| - 1]);
    }
  }

  // ---------------------------------------------------------------------------------------------
  // Revoking an accepted invitation
  // ---------------------------------------------------------------------------------------------

  /** The step is a write of this kind that finds the identifier it saw. */
  predicate Lands(s: Sys, e: Event, claim: bool)
  {
    && e.Write? && e.id in s.actors
    && var a := s.actors[e.id];
    && (if claim then a.op.Claim? else a.op.Revoke?)
    && a.pc.Writing? && StillThere(a.op, s.row, a.pc.seen)
  }

  /** How one step moves the status. */
  lemma StatusStep(s: Sys, e: Event)
    requires Invariant(s)
    ensures Lands(s, e, true) ==>
              s.row.envelope.invitation.status != Revoked && Step(s, e).row.envelope.invitation.status == Accepted
    ensures Lands(s, e, false) ==> Step(s, e).row.envelope.invitation.status == Revoked
    ensures !Lands(s, e, true) && !Lands(s, e, false) ==>
              if Open(s.row.envelope) then Open(Step(s, e).row.envelope)
              else Step(s, e).row.envelope.invitation.status == s.row.envelope.invitation.status
  {
    hide Parses, RowOk;
    if !e.Call? && e.id in s.actors {
      var a := s.actors[e.id];
      if e.Write? && a.pc.Writing? && StillThere(a.op, s.row, a.pc.seen) {
        assert ActorOk(a);
        var token, expiresAt :| MayWrite(a.op, Row(a.pc.seen, token, expiresAt));
      }
    }
  }

  /** The state of a run before its step `i`. */
  function Before(row: Row, events: seq<Event>, i: nat): Sys
    requires i <= |events|
  {
    ExecFrom(Start(row), events[..i])
  }

  lemma BeforeNext(row: Row, events: seq<Event>, i: nat)
    requires i < |events|
    ensures Before(row, events, i + 1) == Step(Before(row, events, i), events[i])
  {
    assert events[..i + 1][..i] == events[..i];
  }

  predicate LandsBetween(row: Row, events: seq<Event>, from: nat, stop: nat, claim: bool)
    requires stop <= |events|
  {
    exists k :: from < k < stop && Lands(Before(row, events, k), events[k], claim)
  }

  /** After an open invitation, the status tells which writes landed since. */
  lemma {:induction false} StatusSince(row: Row, events: seq<Event>, from: nat, stop: nat)
    requires Fresh(row) && from < stop <= |events|
    requires Open(Before(row, events, from).row.envelope) && !events[from].Write?
    ensures Before(row, events, stop).row.envelope.invitation.status == Revoked <==> LandsBetween(row, events, from, stop, false)
    ensures Before(row, events, stop).row.envelope.invitation.status == Accepted <==>
            LandsBetween(row, events, from, stop, true) && !LandsBetween(row, events, from, stop, false)
    decreases stop
  {
    hide Invariant, Step, Lands, Before, Open;
    var i := stop - 1;
    BeforeIsOk(row, events, i);
    BeforeNext(row, events, i);
    StatusStep(Before(row, events, i), events[i]);
    OpenIsNeither(Before(row, events, i).row.envelope);
    OpenIsNeither(Before(row, events, stop).row.envelope);
    NotBothLand(Before(row, events, i), events[i]);
    if i == from {
      assert !LandsBetween(row, events, from, stop, true) && !LandsBetween(row, events, from, stop, false);
    } else {
      StatusSince(row, events, from, i);
      forall claim ensures LandsBetween(row, events, from, stop, claim) <==>
                           LandsBetween(row, events, from, i, claim) || Lands(Before(row, events, i), events[i], claim)
      {
        LandsBetweenNext(row, events, from, i, claim);
      }
    }
  }

  lemma LandsBetweenNext(row: Row, events: seq<Event>, from: nat, i: nat, claim: bool)
    requires from < i < |events|
    ensures LandsBetween(row, events, from, i + 1, claim) <==>
            LandsBetween(row, events, from, i, claim) || Lands(Before(row, events, i), events[i], claim)
  {
    hide Lands, Before;
  }

  lemma BeforeIsOk(row: Row, events: seq<Event>, i: nat)
    requires Fresh(row) && i <= |events|
    ensures Invariant(Before(row, events, i))
  {
    hide Invariant, ExecFrom;
    StartIsOk(row);
    RunKeeps(Start(row), events[..i]);
  }

  lemma OpenIsNeither(e: Envelope)
    ensures Open(e) <==> e.invitation.status != Accepted && e.invitation.status != Revoked
  {
  }

  lemma NotBothLand(s: Sys, e: Event)
    ensures !(Lands(s, e, true) && Lands(s, e, false))
    ensures !e.Write? ==> !Lands(s, e, true) && !Lands(s, e, false)
  {
  }

  /** The events that move a revocation after its list. */
  predicate Moves(e: Event, id: nat, pc: Pc)
  {
    e == Crash(id) || e == if pc.Listed? then Read(id) else Write(id)
  }

  /** An actor stays where it is while none of the events that move it occurs. */
  lemma {:induction false} ActorStays(row: Row, events: seq<Event>, id: nat, from: nat, stop: nat)
    requires from <= stop <= |events| && id in Before(row, events, from).actors
    requires Before(row, events, from).actors[id].op.Revoke? && !Before(row, events, from).actors[id].pc.Starting?
    requires forall i :: from <= i < stop ==> !Moves(events[i], id, Before(row, events, from).actors[id].pc)
    ensures id in Before(row, events, stop).actors
    ensures Before(row, events, stop).actors[id] == Before(row, events, from).actors[id]
    decreases stop
  {
    hide MayWrite, Written, StillThere, ExecFrom;
    if from < stop {
      ActorStays(row, events, id, from, stop - 1);
      BeforeNext(row, events, stop - 1);
    }
  }

  /** When a revocation hits an accepted invitation. Its three steps are at `l`, `r` and `w`, and its write lands. What it
      revokes was accepted if and only if a claim's write landed after the list and before the read, and no other
      revocation's did. */
  lemma RevokesAcceptedExactly(row: Row, events: seq<Event>, id: nat, l: nat, r: nat, w: nat)
    requires Fresh(row) && l < r < w < |events|
    requires events[l] == List(id) && events[r] == Read(id) && events[w] == Write(id)
    requires forall i :: l < i < r ==> events[i] != Read(id) && events[i] != Crash(id)
    requires forall i :: r < i < w ==> events[i] != Write(id) && events[i] != Crash(id)
    requires var s := Before(row, events, l);
             id in s.actors && s.actors[id].op.Revoke? && s.actors[id].pc.Starting? &&
             Parses(s.row.envelope) && Open(s.row.envelope)
    requires Lands(Before(row, events, w), Write(id), false)
    ensures Before(row, events, w + 1).row.envelope.invitation.status == Revoked
    ensures Before(row, events, w).row.envelope.invitation.status == Accepted <==>
            LandsBetween(row, events, l, r, true) && !LandsBetween(row, events, l, r, false)
  {
    hide Invariant, Written, Before, MayWrite, LandsBetween;
    BeforeNext(row, events, l);
    assert Before(row, events, l + 1).actors[id].pc.Listed?;
    ActorStays(row, events, id, l + 1, r);
    BeforeNext(row, events, r);
    ActorStays(row, events, id, r + 1, w);
    BeforeNext(row, events, w);
    StatusSince(row, events, l, r);
    BeforeIsOk(row, events, w);
    StatusStep(Before(row, events, w), events[w]);
    assert Lands(Before(row, events, w), events[w], false);
    NotBothLand(Before(row, events, w), events[w]);
  }

  /** A run in which the claim lands in between. */
  function RevokedAcceptance(credential: string): seq<Event>
  {
    [Call(0, Revoke(2)), List(0), Call(1, Claim(credential, 1, 0)), Read(1), Write(1), Read(0), Write(0)]
  }

  /** It happens: an invitation that was open when the revocation listed it is accepted, its caller is told so, and then
      it is revoked. */
  lemma AcceptedIsRevoked(row: Row, credential: string)
    requires Fresh(row) && Parses(row.envelope) && Open(row.envelope)
    ensures var events := RevokedAcceptance(credential);
            && Before(row, events, 5).row.envelope.invitation.status == Accepted
            && 1 in Before(row, events, 5).actors && Before(row, events, 5).actors[1].pc == Done(true)
            && Before(row, events, 7).row.envelope.invitation.status == Revoked
            && 0 in Before(row, events, 7).actors && Before(row, events, 7).actors[0].pc == Done(true)
            && Before(row, events, 7).log == [Claimed(credential)]
  {
    var events := RevokedAcceptance(credential);
    hide ExecFrom;
    assert Before(row, events, 0) == Start(row) by { NothingYet(row, events); }
    BeforeNext(row, events, 0);
    BeforeNext(row, events, 1);
    BeforeNext(row, events, 2);
    BeforeNext(row, events, 3);
    BeforeNext(row, events, 4);
    BeforeNext(row, events, 5);
    BeforeNext(row, events, 6);
  }

  lemma NothingYet(row: Row, events: seq<Event>)
    ensures Before(row, events, 0) == Start(row)
  {
  }
}
