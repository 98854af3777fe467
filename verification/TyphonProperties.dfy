/** What the demultiplexer guarantees over all runs, and the one thing it does not. */
module TyphonProperties {
  import opened Wrappers
  import opened TyphonProtocol

  // No two calls ever share an id.
  lemma IdsNeverRepeat(s: State, c: nat, d: nat)
    requires Reachable(s) && c < |s.calls| && d < |s.calls| && c != d && s.calls[c].id > 0
    ensures s.calls[c].id != s.calls[d].id
  {
    ReachableInv(s);
    OthersDiffer(s, c);
  }

  // A call receives a frame that carries its own id or the connection's failure, nothing else; its
  // channel sees at most one send.
  lemma ReceivesOwnOrFailure(s: State, c: nat)
    requires Reachable(s) && c < |s.calls|
    ensures s.calls[c].sends <= 1
    ensures s.calls[c].pc.Returned? && s.calls[c].pc.o.Received? && s.calls[c].pc.o.m.Reply? ==>
              s.calls[c].pc.o.m.line.id == Some(s.calls[c].id)
    ensures forall m | m in s.calls[c].chan && m.Reply? :: m.line.id == Some(s.calls[c].id)
  {
    ReachableInv(s);
    assert CallOk(s.calls[c], IsTarget(s.reader, c), s.idSeq);
  }

  // Neither the read loop nor failPending, which sends while holding the lock, can block on a send;
  // failPending can always go on until it releases the lock.
  lemma ReaderNeverBlocks(s: State)
    requires Reachable(s)
    ensures s.reader.Sending? ==> Enabled(s, Send) && s.reader.c < |s.calls| && s.calls[s.reader.c].chan == []
    ensures s.reader.FailLocked? ==> forall id | id in s.pending ::
      Enabled(s, FailOne(id)) && s.pending[id] < |s.calls| && s.calls[s.pending[id]].chan == []
    ensures s.reader.FailLocked? && s.pending == map[] ==> Enabled(s, UnlockPending)
  {
    ReachableInv(s);
    if s.reader.Sending? {
      assert CallOk(s.calls[s.reader.c], true, s.idSeq);
    }
    if s.reader.FailLocked? {
      forall id | id in s.pending
        ensures Enabled(s, FailOne(id)) && s.calls[s.pending[id]].chan == []
      {
        var c := s.pending[id];
        assert CallOk(s.calls[c], IsTarget(s.reader, c), s.idSeq);
      }
    }
  }

  // A call whose entry has been made and not yet been claimed, failed or withdrawn.
  predicate IsPending(k: Call) { k.fate == Outstanding }

  // The pending map holds exactly those calls, each under its own id; none of them has returned or
  // been sent anything.
  lemma PendingIsExact(s: State)
    requires Reachable(s)
    ensures forall id | id in s.pending ::
              s.pending[id] < |s.calls| && IsPending(s.calls[s.pending[id]]) && s.calls[s.pending[id]].id == id
    ensures forall c | 0 <= c < |s.calls| && IsPending(s.calls[c]) ::
              && s.calls[c].id in s.pending && s.pending[s.calls[c].id] == c
              && !s.calls[c].pc.Returned? && s.calls[c].sends == 0
  {
    ReachableInv(s);
    forall c | 0 <= c < |s.calls| && IsPending(s.calls[c])
      ensures !s.calls[c].pc.Returned? && s.calls[c].sends == 0
    {
      assert CallOk(s.calls[c], IsTarget(s.reader, c), s.idSeq);
    }
  }

  // No leak: once all calls have returned the map is empty.
  lemma NothingLeaks(s: State)
    requires Reachable(s) && forall c | 0 <= c < |s.calls| :: s.calls[c].pc.Returned?
    ensures s.pending == map[]
  {
    PendingIsExact(s);
    assert forall id: int :: id !in s.pending;
  }

  // While failPending holds the lock, only it can touch the map; afterwards the reader is gone.
  lemma {:induction false} LockedRun(s: State, steps: seq<Step>, t: State)
    requires Reaches(s, steps, t) && (s.reader.FailLocked? || s.reader.Done?)
    ensures t.reader == s.reader || (s.reader.FailLocked? && t.reader == Done(s.reader.reason, s.reader.todo))
    decreases |steps|
  {
    if steps != [] {
      LockedRun(Next(s, steps[0]), steps[1..], t);
    }
  }

  lemma {:induction false} ReachableLater(s: State, steps: seq<Step>, t: State)
    requires Reachable(s) && Reaches(s, steps, t)
    ensures Reachable(t)
  {
    var before :| Reaches(INITIAL, before, s);
    ReachesTrans(INITIAL, before, s, steps, t);
    assert Reaches(INITIAL, before + steps, t);
  }

  lemma {:induction false} ReachesTrans(r: State, before: seq<Step>, s: State, steps: seq<Step>, t: State)
    requires Reaches(r, before, s) && Reaches(s, steps, t)
    ensures Reaches(r, before + steps, t)
    decreases |before|
  {
    if before == [] {
      assert before + steps == steps;
    } else {
      assert (before + steps)[1..] == before[1..] + steps;
      ReachesTrans(Next(r, before[0]), before[1..], s, steps, t);
    }
  }

  // No stranded caller: every call in the map when failPending takes the lock has the failure message
  // in its channel, or has already received it, when the lock can be released, however the other
  // callers' steps are interleaved.
  lemma FailPendingCovers(s: State, steps: seq<Step>, t: State, id: int)
    requires Reachable(s) && Enabled(s, LockPending)
    requires Reaches(Next(s, LockPending), steps, t) && Enabled(t, UnlockPending)
    requires id in s.pending
    ensures s.pending[id] < |t.calls| && FailedWith(t.calls[s.pending[id]], s.reader.reason)
  {
    var locked := Next(s, LockPending);
    assert Reaches(s, [LockPending], locked) by {
      assert [LockPending][1..] == [];
    }
    ReachableLater(s, [LockPending], locked);
    ReachableLater(locked, steps, t);
    LockedRun(locked, steps, t);
    ReachableInv(t);
    assert s.pending[id] in locked.reader.todo;
  }

  // The limit of that guarantee. A call that passed the closed check before the flag was set may
  // register after failPending has run; nobody is left to answer it.

  // After failPending has run, a waiting call has a message to receive exactly if it did not register late.
  lemma WaitingAfterFailure(s: State, c: nat)
    requires Reachable(s) && s.reader.Done? && At(s, c, Waiting)
    ensures Enabled(s, Receive(c)) <==> !s.calls[c].late
  {
    ReachableInv(s);
    assert CallOk(s.calls[c], IsTarget(s.reader, c), s.idSeq);
  }

  // Such a call is never sent anything, whatever happens next: only its write error or its own
  // context can end it.
  lemma {:induction false} LateCallGetsNothing(s: State, steps: seq<Step>, t: State, c: nat)
    requires Inv(s) && Reaches(s, steps, t) && s.reader.Done?
    requires c < |s.calls| && s.calls[c].late
    ensures c < |t.calls| && t.calls[c].late && t.calls[c].sends == 0
    ensures t.calls[c].pc.Returned? ==> t.calls[c].pc.o in {WriteError, Cancelled}
    decreases |steps|
  {
    if steps == [] {
      assert CallOk(s.calls[c], IsTarget(s.reader, c), s.idSeq);
    } else {
      var n := Next(s, steps[0]);
      NextKeepsInv(s, steps[0], n);
      assert n.reader.Done? && c < |n.calls| && n.calls[c].late;
      LateCallGetsNothing(n, steps[1..], t, c);
    }
  }

  lemma ReachableNext(s: State, step: Step)
    requires Reachable(s) && Enabled(s, step)
    ensures Reachable(Next(s, step))
  {
    One(s, step, [], Next(s, step));
    ReachableLater(s, [step] + [], Next(s, step));
  }

  // The case exists: a run in which the connection fails between the check and the registration.
  lemma LateCallExists()
    ensures exists s :: Reachable(s) && s.reader.Done? && At(s, 0, Waiting) && s.calls[0].late && 1 in s.pending
  {
    assert Reachable(INITIAL) by {
      assert Reaches(INITIAL, [], INITIAL);
    }
    var numbered := State(1, false, true, map[], [Call(Numbered, 1, [], 0, Unregistered, false)], Reading);
    ReachableNext(INITIAL, Enter);
    ReachableNext(Next(INITIAL, Enter), CheckClosed(0));
    ReachableNext(Next(Next(INITIAL, Enter), CheckClosed(0)), TakeId(0));
    assert Next(Next(Next(INITIAL, Enter), CheckClosed(0)), TakeId(0)) == numbered;
    ConnectionGone(numbered);
    var gone := numbered.(closed := true, reader := Done("EOF", {}));
    ReachableNext(gone, Register(0));
    ReachableNext(Next(gone, Register(0)), Write(0, true));
    var s := Next(Next(gone, Register(0)), Write(0, true));
    assert Reachable(s) && s.reader.Done? && At(s, 0, Waiting) && s.calls[0].late && 1 in s.pending;
  }

  // The connection fails while no call is pending.
  lemma ConnectionGone(s: State)
    requires Reachable(s) && s.reader.Reading? && s.pending == map[]
    ensures Reachable(s.(closed := true, reader := Done("EOF", {})))
  {
    var broken := s.(reader := Broken("EOF"));
    var failing := s.(closed := true, reader := Failing("EOF"));
    var locked := failing.(reader := FailLocked("EOF", {}));
    ReachableNext(s, ReadFails("EOF"));
    ReachableNext(broken, MarkClosed);
    ReachableNext(failing, LockPending);
    assert Next(failing, LockPending).reader.todo == {};
    assert Next(failing, LockPending) == locked;
    ReachableNext(locked, UnlockPending);
  }

  lemma One(s: State, step: Step, rest: seq<Step>, t: State)
    requires Enabled(s, step) && Reaches(Next(s, step), rest, t)
    ensures Reaches(s, [step] + rest, t)
  {
    assert ([step] + rest)[1..] == rest;
  }

  // Where things come from: every message is a frame that was read or the error that reading ended with,
  // and a call ends in an error only for the reason that the error names.

  // m is what the steps have read.
  predicate IsFrom(m: Message, steps: seq<Step>) {
    match m
    case Reply(line) => ReadLine(line) in steps
    case Failure(reason) => ReadFails(reason) in steps
  }

  predicate IsClosedBy(steps: seq<Step>) {
    MarkClosed in steps || StopMarks in steps
  }

  predicate IsEarned(c: nat, k: Call, steps: seq<Step>) {
    && (forall i | 0 <= i < |k.chan| :: IsFrom(k.chan[i], steps))
    && (match k.pc
        case Returned(Received(m)) => IsFrom(m, steps)
        case Returned(ClosedError) => IsClosedBy(steps)
        case _ => true)
  }

  predicate IsReaderEarned(r: Reader, steps: seq<Step>) {
    match r
    case Reading => true
    case Probed(line) => ReadLine(line) in steps
    case Sending(_, line) => ReadLine(line) in steps
    case Broken(reason) => ReadFails(reason) in steps
    case Failing(reason) => ReadFails(reason) in steps
    case FailLocked(reason, _) => ReadFails(reason) in steps
    case Done(reason, _) => ReadFails(reason) in steps
  }

  ghost predicate IsAllEarned(s: State, steps: seq<Step>) {
    && (forall c | 0 <= c < |s.calls| :: IsEarned(c, s.calls[c], steps))
    && IsReaderEarned(s.reader, steps)
    && (s.closed <==> IsClosedBy(steps)) && (!s.connOpen <==> StopCloses in steps)
  }

  lemma FromGrows(m: Message, steps: seq<Step>, more: seq<Step>)
    requires IsFrom(m, steps) && steps <= more
    ensures IsFrom(m, more)
  {
    assert forall x | x in steps :: x in more;
  }

  lemma EarnedGrows(c: nat, k: Call, steps: seq<Step>, more: seq<Step>)
    requires IsEarned(c, k, steps) && steps <= more
    ensures IsEarned(c, k, more)
  {
    assert forall x | x in steps :: x in more;
    forall i | 0 <= i < |k.chan|
      ensures IsFrom(k.chan[i], more)
    {
      FromGrows(k.chan[i], steps, more);
    }
  }

  lemma SentIsEarned(c: nat, k: Call, m: Message, steps: seq<Step>)
    requires IsEarned(c, k, steps) && IsFrom(m, steps)
    ensures IsEarned(c, Sent(k, m), steps)
  {
  }

  // The steps that send, those of the reader.
  lemma SendEarned(s: State, steps: seq<Step>, step: Step, c: nat)
    requires IsAllEarned(s, steps) && Enabled(s, step) && c < |s.calls| && (step.Send? || step.FailOne? || step.Claim?)
    ensures IsEarned(c, Next(s, step).calls[c], steps + [step])
  {
    EarnedGrows(c, s.calls[c], steps, steps + [step]);
    if step.Send? {
      FromGrows(Reply(s.reader.line), steps, steps + [step]);
      SentIsEarned(c, s.calls[c], Reply(s.reader.line), steps + [step]);
    } else if step.FailOne? {
      FromGrows(Failure(s.reader.reason), steps, steps + [step]);
      SentIsEarned(c, s.calls[c], Failure(s.reader.reason), steps + [step]);
    }
  }

  lemma EarnedCall(s: State, steps: seq<Step>, step: Step, c: nat)
    requires IsAllEarned(s, steps) && Enabled(s, step) && c < |Next(s, step).calls|
    ensures IsEarned(c, Next(s, step).calls[c], steps + [step])
  {
    if step.Send? || step.FailOne? || step.Claim? {
      SendEarned(s, steps, step, c);
    } else if c < |s.calls| {
      CallerEarned(s, steps, step, c);
    }
  }

  lemma CallerEarned(s: State, steps: seq<Step>, step: Step, c: nat)
    requires IsAllEarned(s, steps) && Enabled(s, step) && c < |s.calls| && !step.Send? && !step.FailOne? && !step.Claim?
    ensures IsEarned(c, Next(s, step).calls[c], steps + [step])
  {
    EarnedGrows(c, s.calls[c], steps, steps + [step]);
    if step.CheckClosed? && IsClosedBy(steps) {
      ClosedGrows(steps, step);
    }
  }

  lemma ClosedGrows(steps: seq<Step>, step: Step)
    requires IsClosedBy(steps)
    ensures IsClosedBy(steps + [step])
  {
  }

  lemma EarnedNext(s: State, steps: seq<Step>, step: Step)
    requires IsAllEarned(s, steps) && Enabled(s, step)
    ensures IsAllEarned(Next(s, step), steps + [step])
  {
    forall c | 0 <= c < |Next(s, step).calls|
      ensures IsEarned(c, Next(s, step).calls[c], steps + [step])
    {
      EarnedCall(s, steps, step, c);
    }
  }

  lemma {:induction false} EarnedRun(s: State, before: seq<Step>, steps: seq<Step>, t: State)
    requires IsAllEarned(s, before) && Reaches(s, steps, t)
    ensures IsAllEarned(t, before + steps)
    decreases |steps|
  {
    if steps == [] {
      assert before + [] == before;
    } else {
      EarnedNext(s, before, steps[0]);
      EarnedRun(Next(s, steps[0]), before + [steps[0]], steps[1..], t);
      assert before + [steps[0]] + steps[1..] == before + steps;
    }
  }

  // What a caller receives, or will receive, is a frame that the server sent, as it was sent, or the
  // error that ended the reading.
  lemma MessagesAreGenuine(steps: seq<Step>, s: State, c: nat, m: Message)
    requires Reaches(INITIAL, steps, s) && c < |s.calls|
    requires m in s.calls[c].chan || s.calls[c].pc == Returned(Received(m))
    ensures m.Reply? ==> ReadLine(m.line) in steps && m.line.id == Some(s.calls[c].id)
    ensures m.Failure? ==> ReadFails(m.reason) in steps
  {
    EarnedRun(INITIAL, [], steps, s);
    assert [] + steps == steps;
    assert IsEarned(c, s.calls[c], steps);
    assert Reachable(s);
    ReceivesOwnOrFailure(s, c);
  }

  // How far a call has come, told by which of its steps have happened.
  predicate Progress(pc: Pc, c: nat, steps: seq<Step>) {
    && (CheckClosed(c) in steps <==> !pc.Entered?)
    && (TakeId(c) in steps <==> !pc.Entered? && !pc.Checked? && pc != Returned(ClosedError))
    && (MarshalFails(c) in steps <==> pc == Returned(MarshalError))
    && (Register(c) in steps <==> pc.Registered? || IsWritten(pc) || IsUnwritten(pc))
    && (Write(c, true) in steps <==> IsWritten(pc))
    && (Write(c, false) in steps <==> IsUnwritten(pc))
    && (Receive(c) in steps <==> pc.Returned? && pc.o.Received?)
    && (ContextDone(c) in steps <==> pc.TimedOut? || pc == Returned(Cancelled))
    && (Withdraw(c) in steps <==> pc == Returned(WriteError) || pc == Returned(Cancelled))
  }

  predicate IsWritten(pc: Pc) {
    pc.Waiting? || pc.TimedOut? || pc == Returned(Cancelled) || (pc.Returned? && pc.o.Received?)
  }

  predicate IsUnwritten(pc: Pc) {
    pc.WriteFailed? || pc == Returned(WriteError)
  }

  // A call that has not entered yet has taken no step.
  function PcAt(s: State, c: nat): Pc {
    if c < |s.calls| then s.calls[c].pc else Entered
  }

  ghost predicate AllProgress(s: State, steps: seq<Step>) {
    forall c: nat :: Progress(PcAt(s, c), c, steps)
  }

  // The step is one of call c.
  predicate IsOf(step: Step, c: nat) {
    match step
    case CheckClosed(d) => c == d
    case TakeId(d) => c == d
    case MarshalFails(d) => c == d
    case Register(d) => c == d
    case Write(d, _) => c == d
    case Receive(d) => c == d
    case ContextDone(d) => c == d
    case Withdraw(d) => c == d
    case _ => false
  }

  lemma InSnoc(steps: seq<Step>, step: Step, x: Step)
    ensures x in steps + [step] <==> x in steps || x == step
  {
  }

  // What a step adds to what has happened to a call.
  lemma HistorySnoc(steps: seq<Step>, step: Step, c: nat)
    ensures var more := steps + [step];
            && (CheckClosed(c) in more <==> CheckClosed(c) in steps || step == CheckClosed(c))
            && (TakeId(c) in more <==> TakeId(c) in steps || step == TakeId(c))
            && (MarshalFails(c) in more <==> MarshalFails(c) in steps || step == MarshalFails(c))
            && (Register(c) in more <==> Register(c) in steps || step == Register(c))
            && (Write(c, true) in more <==> Write(c, true) in steps || step == Write(c, true))
            && (Write(c, false) in more <==> Write(c, false) in steps || step == Write(c, false))
            && (Receive(c) in more <==> Receive(c) in steps || step == Receive(c))
            && (ContextDone(c) in more <==> ContextDone(c) in steps || step == ContextDone(c))
            && (Withdraw(c) in more <==> Withdraw(c) in steps || step == Withdraw(c))
  {
    InSnoc(steps, step, CheckClosed(c));
    InSnoc(steps, step, TakeId(c));
    InSnoc(steps, step, MarshalFails(c));
    InSnoc(steps, step, Register(c));
    InSnoc(steps, step, Write(c, true));
    InSnoc(steps, step, Write(c, false));
    InSnoc(steps, step, Receive(c));
    InSnoc(steps, step, ContextDone(c));
    InSnoc(steps, step, Withdraw(c));
  }

  lemma OwnStep(s: State, steps: seq<Step>, step: Step, c: nat)
    requires Progress(PcAt(s, c), c, steps) && Enabled(s, step) && IsOf(step, c)
    ensures Progress(PcAt(Next(s, step), c), c, steps + [step])
  {
    HistorySnoc(steps, step, c);
  }

  lemma OtherStep(s: State, steps: seq<Step>, step: Step, c: nat)
    requires Progress(PcAt(s, c), c, steps) && Enabled(s, step) && !IsOf(step, c)
    ensures Progress(PcAt(Next(s, step), c), c, steps + [step])
  {
    HistorySnoc(steps, step, c);
    assert PcAt(Next(s, step), c) == PcAt(s, c);
  }

  lemma {:induction false} ProgressRun(s: State, before: seq<Step>, steps: seq<Step>, t: State)
    requires AllProgress(s, before) && Reaches(s, steps, t)
    ensures AllProgress(t, before + steps)
    decreases |steps|
  {
    if steps == [] {
      assert before + [] == before;
    } else {
      forall c: nat
        ensures Progress(PcAt(Next(s, steps[0]), c), c, before + [steps[0]])
      {
        if IsOf(steps[0], c) {
          OwnStep(s, before, steps[0], c);
        } else {
          OtherStep(s, before, steps[0], c);
        }
      }
      ProgressRun(Next(s, steps[0]), before + [steps[0]], steps[1..], t);
      assert before + [steps[0]] + steps[1..] == before + steps;
    }
  }

  // Over all runs a call stands where its steps have brought it: it ends as unmarshallable, unwritten,
  // cancelled or answered exactly if that has happened to it, and as closed only after a close.
  lemma ProgressIsExact(steps: seq<Step>, s: State, c: nat)
    requires Reaches(INITIAL, steps, s) && c < |s.calls|
    ensures Progress(s.calls[c].pc, c, steps)
    ensures s.calls[c].pc == Returned(ClosedError) ==> MarkClosed in steps || StopMarks in steps
  {
    assert [] + steps == steps;
    ProgressRun(INITIAL, [], steps, s);
    assert Progress(PcAt(s, c), c, steps);
    EarnedRun(INITIAL, [], steps, s);
    assert IsEarned(c, s.calls[c], steps);
  }

  // Once the driver is closed, whether by a failed read or by Stop, a call that enters gets no further
  // than the check.
  ghost predicate NoneAdmitted(s: State, n: nat) {
    s.closed && forall c | n <= c < |s.calls| :: s.calls[c].pc == Entered || s.calls[c].pc == Returned(ClosedError)
  }

  lemma {:induction false} ClosedAdmitsNone(s: State, steps: seq<Step>, t: State, n: nat)
    requires NoneAdmitted(s, n) && Reaches(s, steps, t)
    ensures NoneAdmitted(t, n)
    decreases |steps|
  {
    if steps != [] {
      NoneAdmittedNext(s, steps[0], n);
      ClosedAdmitsNone(Next(s, steps[0]), steps[1..], t, n);
    }
  }

  lemma NoneAdmittedNext(s: State, step: Step, n: nat)
    requires NoneAdmitted(s, n) && Enabled(s, step)
    ensures NoneAdmitted(Next(s, step), n)
  {
  }

  lemma CallsAfterClose(before: seq<Step>, s: State, steps: seq<Step>, t: State, c: nat)
    requires Reaches(INITIAL, before, s) && (MarkClosed in before || StopMarks in before)
    requires Reaches(s, steps, t) && |s.calls| <= c < |t.calls|
    ensures t.calls[c].pc == Entered || t.calls[c].pc == Returned(ClosedError)
  {
    EarnedRun(INITIAL, [], before, s);
    assert [] + before == before;
    ClosedAdmitsNone(s, steps, t, |s.calls|);
  }
}
