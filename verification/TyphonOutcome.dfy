/** What a caller is told in the end when the connection fails under its call. */
module TyphonOutcome {
  import opened Wrappers
  import opened TyphonProtocol
  import opened TyphonProperties
  import F = TyphonFailure

  // A message as the caller's select hands it on: a frame is its own text, a failure the built object.
  function TextOf(m: Message): string {
    match m
    case Reply(line) => line.text
    case Failure(reason) => F.FailureText(reason)
  }

  // A step leaves the call as it is.
  predicate Untouched(s: State, n: State, c: nat) {
    c < |s.calls| && c < |n.calls| && n.calls[c] == s.calls[c]
  }

  // A call that has been sent the failure keeps it until it receives it, and receives nothing else.

  lemma CallerKeepsFailed(s: State, step: Step, n: State, c: nat, reason: string)
    requires Inv(s) && Enabled(s, step) && n == Next(s, step)
    requires c < |s.calls| && FailedWith(s.calls[c], reason)
    requires step.CheckClosed? || step.TakeId? || step.MarshalFails? || step.Register? || step.Write? || step.Receive?
      || step.ContextDone?
    ensures c < |n.calls| && FailedWith(n.calls[c], reason)
  {
    assert CallOk(s.calls[c], IsTarget(s.reader, c), s.idSeq);
  }

  lemma ReaderKeepsFailed(s: State, step: Step, n: State, c: nat, reason: string)
    requires Inv(s) && Enabled(s, step) && n == Next(s, step)
    requires c < |s.calls| && FailedWith(s.calls[c], reason)
    requires step.Claim? || step.Send? || step.FailOne?
    ensures c < |n.calls| && FailedWith(n.calls[c], reason)
  {
    assert CallOk(s.calls[c], IsTarget(s.reader, c), s.idSeq);
    match step
    case Claim => ClaimTouchesOther(s, c);
    case FailOne(id) => assert s.calls[s.pending[id]].fate == Outstanding;
    case _ =>
  }

  lemma NextKeepsFailed(s: State, step: Step, n: State, c: nat, reason: string)
    requires Inv(s) && Enabled(s, step) && n == Next(s, step)
    requires c < |s.calls| && FailedWith(s.calls[c], reason)
    ensures c < |n.calls| && FailedWith(n.calls[c], reason)
  {
    if step.Claim? || step.Send? || step.FailOne? {
      ReaderKeepsFailed(s, step, n, c, reason);
    } else if step.Withdraw? {
      WithdrawTouchesOther(s, step.c, c);
    } else if step.CheckClosed? || step.TakeId? || step.MarshalFails? || step.Register? || step.Write? || step.Receive?
      || step.ContextDone? {
      CallerKeepsFailed(s, step, n, c, reason);
    }
  }

  // A failed call is no longer in the map.
  lemma ClaimTouchesOther(s: State, c: nat)
    requires Inv(s) && Enabled(s, Claim) && c < |s.calls| && s.calls[c].fate == Failed
    ensures Untouched(s, Next(s, Claim), c)
  {
    if Answers(s, s.reader.line) {
      var id: int := s.reader.line.id.value;
      assert s.calls[s.pending[id]].fate == Outstanding;
    }
  }

  lemma WithdrawTouchesOther(s: State, d: nat, c: nat)
    requires Inv(s) && Enabled(s, Withdraw(d)) && c < |s.calls| && s.calls[c].fate == Failed
    ensures var n := Next(s, Withdraw(d)); n.calls[c].chan == s.calls[c].chan && n.calls[c].fate == Failed
    ensures c != d ==> Untouched(s, Next(s, Withdraw(d)), c)
  {
    if c == d && s.calls[d].id in s.pending {
      assert CallOk(s.calls[d], IsTarget(s.reader, d), s.idSeq);
      OwnEntry(s, d);
    }
  }

  lemma {:induction false} FailedStays(s: State, steps: seq<Step>, t: State, c: nat, reason: string)
    requires Inv(s) && Reaches(s, steps, t) && c < |s.calls| && FailedWith(s.calls[c], reason)
    ensures c < |t.calls| && FailedWith(t.calls[c], reason)
    decreases |steps|
  {
    if steps != [] {
      var n := Next(s, steps[0]);
      NextKeepsInv(s, steps[0], n);
      NextKeepsFailed(s, steps[0], n, c, reason);
      FailedStays(n, steps[1..], t, c, reason);
    }
  }

  // A call in the map when failPending takes the lock: whatever it receives later is the connection's
  // failure, and the caller sees that as an error in its own words exactly if the text is not empty
  // and needs no escaping.
  lemma CoveredCallReports(s: State, steps: seq<Step>, t: State, later: seq<Step>, u: State, id: int)
    requires Reachable(s) && Enabled(s, LockPending) && id in s.pending
    requires Reaches(Next(s, LockPending), steps, t) && Enabled(t, UnlockPending) && Reaches(t, later, u)
    ensures var c, reason := s.pending[id], s.reader.reason;
            && c < |u.calls|
            && (u.calls[c].pc.Waiting? ==> Enabled(u, Receive(c)))
            && (u.calls[c].pc.Returned? && u.calls[c].pc.o.Received? ==>
                  && u.calls[c].pc.o.m == Failure(reason)
                  && (F.CallerSees(TextOf(u.calls[c].pc.o.m)) == F.RpcError(reason)
                      <==> F.JsonSafe(reason) && reason != ""))
  {
    var c, reason := s.pending[id], s.reader.reason;
    var locked := Next(s, LockPending);
    FailPendingCovers(s, steps, t, id);
    ReachableNext(s, LockPending);
    ReachableLater(locked, steps, t);
    ReachableInv(t);
    FailedStays(t, later, u, c, reason);
    ReachesKeepsInv(t, later, u);
    FailedReceives(u, c, reason);
    F.FailureIsReported(reason);
  }

  lemma FailedReceives(u: State, c: nat, reason: string)
    requires Inv(u) && c < |u.calls| && FailedWith(u.calls[c], reason)
    ensures u.calls[c].pc.Waiting? ==> Enabled(u, Receive(c))
    ensures u.calls[c].pc.Returned? && u.calls[c].pc.o.Received? ==> u.calls[c].pc.o.m == Failure(reason)
  {
    assert CallOk(u.calls[c], IsTarget(u.reader, c), u.idSeq);
  }

  // A caller whose call was answered gets a text that the server sent under the call's id, word for
  // word, unless the server itself put an error member into it.
  lemma AnsweredCallReturns(steps: seq<Step>, s: State, c: nat, line: Line)
    requires Reaches(INITIAL, steps, s) && c < |s.calls| && s.calls[c].pc == Returned(Received(Reply(line)))
    ensures ReadLine(line) in steps && line.id == Some(s.calls[c].id)
    ensures F.ProbeError(F.MEMBER, line.text).None? ==> F.CallerSees(TextOf(Reply(line))) == F.Raw(line.text)
  {
    MessagesAreGenuine(steps, s, c, Reply(line));
  }
}
