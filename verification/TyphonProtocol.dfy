/**
 The JSON-RPC demultiplexer of the typhon driver as a state machine: any number of callers, one reader
 goroutine, the shared pending map and one channel of capacity 1 per call. A step is one lock section,
 one channel operation, one atomic operation or one write; the server may reorder, repeat, drop and
 invent responses, and any read or write may fail.
 */
module TyphonProtocol {
  import opened Wrappers

  // A frame from the server; id is what the probe of its "id" member finds.
  datatype Line = Line(id: Option<int>, text: string)

  datatype Message = Reply(line: Line) | Failure(reason: string)

  datatype Outcome = Received(m: Message) | ClosedError | MarshalError | WriteError | Cancelled

  datatype Pc =
    | Entered              // about to read the closed flag
    | Checked              // the flag was clear
    | Numbered             // has its id
    | Registered           // is in the pending map, frame not yet written
    | Waiting              // in the select
    | WriteFailed          // about to take itself out of the map
    | TimedOut             // about to take itself out of the map
    | Returned(o: Outcome)

  // What became of a call's entry in the pending map.
  datatype Fate = Unregistered | Outstanding | Claimed | Failed | Withdrawn

  // sends counts the sends on the call's channel; late says that the call registered after
  // failPending had run.
  datatype Call = Call(pc: Pc, id: nat, chan: seq<Message>, sends: nat, fate: Fate, late: bool)

  datatype Reader =
    | Reading
    | Probed(line: Line)
    | Sending(c: nat, line: Line)
    | Broken(reason: string)
    | Failing(reason: string)
    | FailLocked(reason: string, todo: set<nat>)   // failPending holds the lock
    | Done(reason: string, todo: set<nat>)

  datatype State = State(
    idSeq: nat, closed: bool, connOpen: bool,
    pending: map<int, nat>, calls: seq<Call>, reader: Reader)

  const INITIAL := State(0, false, true, map[], [], Reading)

  datatype Step =
    | Enter
    | CheckClosed(c: nat)
    | TakeId(c: nat)
    | MarshalFails(c: nat)
    | Register(c: nat)
    | Write(c: nat, ok: bool)
    | Receive(c: nat)
    | ContextDone(c: nat)
    | Withdraw(c: nat)
    | ReadLine(line: Line)
    | Claim
    | Send
    | ReadFails(reason: string)
    | MarkClosed
    | LockPending
    | FailOne(id: int)
    | UnlockPending
    | StopMarks
    | StopCloses

  predicate At(s: State, c: nat, pc: Pc) {
    c < |s.calls| && s.calls[c].pc == pc
  }

  // The pending mutex is held over several steps only by failPending.
  predicate LockFree(s: State) {
    !s.reader.FailLocked?
  }

  // A channel of capacity 1 accepts a send only when it is empty.
  predicate HasRoom(s: State, c: nat) {
    c < |s.calls| && |s.calls[c].chan| < 1
  }

  predicate Enabled(s: State, step: Step) {
    match step
    case Enter => true
    case CheckClosed(c) => At(s, c, Entered)
    case TakeId(c) => At(s, c, Checked)
    case MarshalFails(c) => At(s, c, Numbered)
    case Register(c) => At(s, c, Numbered) && LockFree(s)
    case Write(c, ok) => At(s, c, Registered) && (ok ==> s.connOpen)
    case Receive(c) => At(s, c, Waiting) && s.calls[c].chan != []
    case ContextDone(c) => At(s, c, Waiting)
    case Withdraw(c) => (At(s, c, WriteFailed) || At(s, c, TimedOut)) && LockFree(s)
    case ReadLine(_) => s.reader.Reading?
    case Claim => s.reader.Probed?
    case Send => s.reader.Sending? && HasRoom(s, s.reader.c)
    case ReadFails(_) => s.reader.Reading?
    case MarkClosed => s.reader.Broken?
    case LockPending => s.reader.Failing?
    case FailOne(id) => s.reader.FailLocked? && id in s.pending && HasRoom(s, s.pending[id])
    case UnlockPending => s.reader.FailLocked? && s.pending == map[]
    case StopMarks => true
    case StopCloses => true
  }

  // The frame answers a pending call.
  predicate Answers(s: State, line: Line) {
    line.id.Some? && var id: int := line.id.value; id in s.pending && s.pending[id] < |s.calls|
  }

  function With(s: State, c: nat, k: Call): State
    requires c < |s.calls|
  {
    s.(calls := s.calls[c := k])
  }

  function Next(s: State, step: Step): State
    requires Enabled(s, step)
  {
    match step
    case Enter => s.(calls := s.calls + [Call(Entered, 0, [], 0, Unregistered, false)])
    case CheckClosed(c) =>
      With(s, c, s.calls[c].(pc := if s.closed then Returned(ClosedError) else Checked))
    case TakeId(c) =>
      With(s, c, s.calls[c].(pc := Numbered, id := s.idSeq + 1)).(idSeq := s.idSeq + 1)
    case MarshalFails(c) => With(s, c, s.calls[c].(pc := Returned(MarshalError)))
    case Register(c) =>
      With(s, c, s.calls[c].(pc := Registered, fate := Outstanding, late := s.reader.Done?))
        .(pending := s.pending[s.calls[c].id := c])
    case Write(c, ok) => With(s, c, s.calls[c].(pc := if ok then Waiting else WriteFailed))
    case Receive(c) =>
      With(s, c, s.calls[c].(pc := Returned(Received(s.calls[c].chan[0])), chan := s.calls[c].chan[1..]))
    case ContextDone(c) => With(s, c, s.calls[c].(pc := TimedOut))
    case Withdraw(c) =>
      With(s, c, s.calls[c].(
        pc := Returned(if s.calls[c].pc.WriteFailed? then WriteError else Cancelled),
        fate := if s.calls[c].id in s.pending then Withdrawn else s.calls[c].fate))
        .(pending := s.pending - {s.calls[c].id})
    case ReadLine(line) => if line.id.None? then s else s.(reader := Probed(line))
    case Claim =>
      var line := s.reader.line;
      if Answers(s, line) then
        var id: int := line.id.value;
        var c := s.pending[id];
        With(s, c, s.calls[c].(fate := Claimed)).(pending := s.pending - {id}, reader := Sending(c, line))
      else s.(reader := Reading)
    case Send =>
      var c := s.reader.c;
      With(s, c, Sent(s.calls[c], Reply(s.reader.line))).(reader := Reading)
    case ReadFails(reason) => s.(reader := Broken(reason))
    case MarkClosed => s.(closed := true, reader := Failing(s.reader.reason))
    case LockPending => s.(reader := FailLocked(s.reader.reason, set id | id in s.pending :: s.pending[id]))
    case FailOne(id) =>
      var c := s.pending[id];
      With(s, c, Sent(s.calls[c], Failure(s.reader.reason)).(fate := Failed)).(pending := s.pending - {id})
    case UnlockPending => s.(reader := Done(s.reader.reason, s.reader.todo))
    case StopMarks => s.(closed := true)
    case StopCloses => s.(connOpen := false)
  }

  function Sent(k: Call, m: Message): Call {
    k.(chan := k.chan + [m], sends := k.sends + 1)
  }

  // Runs.

  ghost predicate Reaches(s: State, steps: seq<Step>, t: State)
    decreases |steps|
  {
    if steps == [] then s == t
    else Enabled(s, steps[0]) && Reaches(Next(s, steps[0]), steps[1..], t)
  }

  ghost predicate Reachable(s: State) {
    exists steps :: Reaches(INITIAL, steps, s)
  }

  // The inductive invariant.

  predicate IsOwn(k: Call, m: Message) {
    match m
    case Reply(line) => line.id == Some(k.id) && k.fate == Claimed
    case Failure(_) => k.fate == Failed
  }

  // How far a call has come fits its entry's fate, its id, and what its channel has seen. sending says
  // that the reader is about to send on the channel.
  predicate CallOk(k: Call, sending: bool, idSeq: nat) {
    && k.id <= idSeq
    && (k.id == 0 <==> k.pc in {Entered, Checked, Returned(ClosedError)})
    && (match k.pc
        case Registered => k.fate in {Outstanding, Claimed, Failed}
        case Waiting => k.fate in {Outstanding, Claimed, Failed}
        case WriteFailed => k.fate in {Outstanding, Claimed, Failed}
        case TimedOut => k.fate in {Outstanding, Claimed, Failed}
        case Returned(Received(m)) => k.fate in {Claimed, Failed} && IsOwn(k, m)
        case Returned(WriteError) => k.fate in {Claimed, Failed, Withdrawn}
        case Returned(Cancelled) => k.fate in {Claimed, Failed, Withdrawn}
        case _ => k.fate == Unregistered)
    && (sending ==> k.fate == Claimed)
    && k.sends == (if k.fate == Failed || (k.fate == Claimed && !sending) then 1 else 0)
    && k.sends == |k.chan| + (if k.pc.Returned? && k.pc.o.Received? then 1 else 0)
    && forall i | 0 <= i < |k.chan| :: IsOwn(k, k.chan[i])
  }

  predicate IsTarget(r: Reader, c: nat) {
    r.Sending? && r.c == c
  }

  ghost predicate CallsOk(s: State) {
    forall c | 0 <= c < |s.calls| :: CallOk(s.calls[c], IsTarget(s.reader, c), s.idSeq)
  }

  ghost predicate IdsUnique(s: State) {
    forall c, d | 0 <= c < d < |s.calls| :: s.calls[c].id > 0 ==> s.calls[c].id != s.calls[d].id
  }

  // The pending map holds exactly the calls whose entry is outstanding, under their ids.
  ghost predicate PendingOk(s: State) {
    && (forall id | id in s.pending ::
          s.pending[id] < |s.calls| && s.calls[s.pending[id]].id == id && s.calls[s.pending[id]].fate == Outstanding)
    && (forall c | 0 <= c < |s.calls| ::
          s.calls[c].fate == Outstanding ==> s.calls[c].id in s.pending && s.pending[s.calls[c].id] == c)
  }

  predicate FailedWith(k: Call, reason: string) {
    k.fate == Failed && (k.chan == [Failure(reason)] || k.pc == Returned(Received(Failure(reason))))
  }

  ghost predicate ReaderOk(s: State) {
    match s.reader
    case Sending(c, line) => c < |s.calls| && line.id == Some(s.calls[c].id)
    case FailLocked(reason, todo) =>
      && s.closed
      && (forall c | c in todo :: c < |s.calls|)
      && (forall c | c in todo :: s.calls[c].fate == Outstanding || FailedWith(s.calls[c], reason))
      && (forall c | 0 <= c < |s.calls| :: s.calls[c].fate == Outstanding ==> c in todo)
    case Failing(_) => s.closed
    case Done(_, todo) =>
      && s.closed
      && (forall c | c in todo :: c < |s.calls| && s.calls[c].fate == Failed)
      && (forall c | 0 <= c < |s.calls| :: s.calls[c].fate == Outstanding ==> s.calls[c].late)
    case _ => true
  }

  // A call that registers after failPending has run is never claimed or failed.
  ghost predicate LateOk(s: State) {
    forall c | 0 <= c < |s.calls| :: s.calls[c].late ==> s.reader.Done? && s.calls[c].fate in {Outstanding, Withdrawn}
  }

  ghost predicate Inv(s: State) {
    CallsOk(s) && IdsUnique(s) && PendingOk(s) && ReaderOk(s) && LateOk(s)
  }

  // What a step that changes one call has to show.

  lemma UpdateKeepsCalls(s: State, t: State, c: nat, k: Call)
    requires CallsOk(s) && c < |s.calls| && t.calls == s.calls[c := k] && s.idSeq <= t.idSeq
    requires forall d | 0 <= d < |s.calls| && d != c :: IsTarget(t.reader, d) == IsTarget(s.reader, d)
    requires CallOk(k, IsTarget(t.reader, c), t.idSeq)
    ensures CallsOk(t)
  {
    assert forall d | 0 <= d < |s.calls| :: CallOk(s.calls[d], IsTarget(s.reader, d), s.idSeq);
  }

  lemma UpdateKeepsIds(s: State, t: State, c: nat, k: Call)
    requires CallsOk(s) && IdsUnique(s) && c < |s.calls| && t.calls == s.calls[c := k]
    requires k.id == s.calls[c].id || k.id > s.idSeq
    ensures IdsUnique(t)
  {
    forall d | 0 <= d < |s.calls|
      ensures s.calls[d].id <= s.idSeq
    {
      assert CallOk(s.calls[d], IsTarget(s.reader, d), s.idSeq);
    }
  }

  lemma UpdateKeepsLate(s: State, t: State, c: nat, k: Call)
    requires LateOk(s) && c < |s.calls| && t.calls == s.calls[c := k] && (s.reader.Done? ==> t.reader.Done?)
    requires k.late ==> t.reader.Done? && k.fate in {Outstanding, Withdrawn}
    ensures LateOk(t)
  {
  }

  lemma InvOfUpdate(s: State, t: State, c: nat, k: Call)
    requires Inv(s) && c < |s.calls| && t.calls == s.calls[c := k] && s.idSeq <= t.idSeq
    requires forall d | 0 <= d < |s.calls| && d != c :: IsTarget(t.reader, d) == IsTarget(s.reader, d)
    requires CallOk(k, IsTarget(t.reader, c), t.idSeq)
    requires k.id == s.calls[c].id || k.id > s.idSeq
    requires PendingOk(t) && ReaderOk(t) && (s.reader.Done? ==> t.reader.Done?)
    requires k.late ==> t.reader.Done? && k.fate in {Outstanding, Withdrawn}
    ensures Inv(t)
  {
    UpdateKeepsCalls(s, t, c, k);
    UpdateKeepsIds(s, t, c, k);
    UpdateKeepsLate(s, t, c, k);
  }

  // A step of a caller that changes neither its id nor its entry.
  lemma LocalStep(s: State, c: nat, k: Call, t: State)
    requires Inv(s) && c < |s.calls| && t == With(s, c, k)
    requires k.id == s.calls[c].id && k.fate == s.calls[c].fate && k.late == s.calls[c].late
    requires CallOk(k, IsTarget(s.reader, c), s.idSeq)
    requires s.reader.FailLocked? && FailedWith(s.calls[c], s.reader.reason) ==> FailedWith(k, s.reader.reason)
    ensures Inv(t)
  {
    InvOfUpdate(s, t, c, k);
  }

  const NEW_CALL := Call(Entered, 0, [], 0, Unregistered, false)

  lemma EnterKeepsCalls(s: State, t: State)
    requires CallsOk(s) && ReaderOk(s) && t == s.(calls := s.calls + [NEW_CALL])
    ensures CallsOk(t)
  {
    assert CallOk(NEW_CALL, false, s.idSeq);
    assert forall c | 0 <= c < |s.calls| :: CallOk(s.calls[c], IsTarget(s.reader, c), s.idSeq);
  }

  lemma EnterKeepsInv(s: State, t: State)
    requires Inv(s) && t == Next(s, Enter)
    ensures Inv(t)
  {
    EnterKeepsCalls(s, t);
    assert forall c | 0 <= c < |s.calls| :: t.calls[c] == s.calls[c];
  }

  lemma TakeIdKeepsInv(s: State, c: nat, t: State)
    requires Inv(s) && Enabled(s, TakeId(c)) && t == Next(s, TakeId(c))
    ensures Inv(t)
  {
    assert CallOk(s.calls[c], IsTarget(s.reader, c), s.idSeq);
    InvOfUpdate(s, t, c, t.calls[c]);
  }

  // Ids tell the calls that have one apart.
  lemma OthersDiffer(s: State, c: nat)
    requires Inv(s) && c < |s.calls| && s.calls[c].id > 0
    ensures forall d | 0 <= d < |s.calls| && d != c :: s.calls[d].id != s.calls[c].id
  {
    assert forall d | 0 <= d < c :: s.calls[d].id > 0 ==> s.calls[d].id != s.calls[c].id;
  }

  lemma RegisterKeepsInv(s: State, c: nat, t: State)
    requires Inv(s) && Enabled(s, Register(c)) && t == Next(s, Register(c))
    ensures Inv(t)
  {
    assert CallOk(s.calls[c], IsTarget(s.reader, c), s.idSeq);
    OthersDiffer(s, c);
    InvOfUpdate(s, t, c, t.calls[c]);
  }

  // A call's own entry is the only one under its id.
  lemma OwnEntry(s: State, c: nat)
    requires Inv(s) && c < |s.calls| && s.calls[c].id > 0 && s.calls[c].id in s.pending
    ensures s.pending[s.calls[c].id] == c
  {
    OthersDiffer(s, c);
    assert s.calls[s.pending[s.calls[c].id]].id == s.calls[c].id;
  }

  lemma RemovalKeepsPending(s: State, t: State, c: nat)
    requires Inv(s) && c < |s.calls| && s.calls[c].id > 0
    requires t.pending == s.pending - {s.calls[c].id} && |t.calls| == |s.calls|
    requires forall d | 0 <= d < |s.calls| && d != c :: t.calls[d] == s.calls[d]
    requires t.calls[c].id == s.calls[c].id && t.calls[c].fate != Outstanding
    ensures PendingOk(t)
  {
    OthersDiffer(s, c);
    forall id | id in t.pending
      ensures t.pending[id] < |t.calls| && t.calls[t.pending[id]].id == id && t.calls[t.pending[id]].fate == Outstanding
    {
      assert id in s.pending && s.calls[s.pending[id]].id == id;
    }
  }

  lemma WithdrawKeepsInv(s: State, c: nat, t: State)
    requires Inv(s) && Enabled(s, Withdraw(c)) && t == Next(s, Withdraw(c))
    ensures Inv(t)
  {
    assert CallOk(s.calls[c], IsTarget(s.reader, c), s.idSeq);
    if s.calls[c].id in s.pending {
      OwnEntry(s, c);
    }
    RemovalKeepsPending(s, t, c);
    InvOfUpdate(s, t, c, t.calls[c]);
  }

  lemma ClaimKeepsInv(s: State, t: State)
    requires Inv(s) && Enabled(s, Claim) && t == Next(s, Claim)
    ensures Inv(t)
  {
    if Answers(s, s.reader.line) {
      var key: int := s.reader.line.id.value;
      var c := s.pending[key];
      assert s.calls[c].id == key && s.calls[c].fate == Outstanding;
      assert CallOk(s.calls[c], IsTarget(s.reader, c), s.idSeq);
      RemovalKeepsPending(s, t, c);
      InvOfUpdate(s, t, c, t.calls[c]);
    } else {
      QuietStep(s, t);
    }
  }

  lemma SendKeepsInv(s: State, t: State)
    requires Inv(s) && Enabled(s, Send) && t == Next(s, Send)
    ensures Inv(t)
  {
    var c := s.reader.c;
    assert CallOk(s.calls[c], true, s.idSeq);
    InvOfUpdate(s, t, c, t.calls[c]);
  }

  lemma FailOneKeepsInv(s: State, id: int, t: State)
    requires Inv(s) && Enabled(s, FailOne(id)) && t == Next(s, FailOne(id))
    ensures Inv(t)
  {
    var c := s.pending[id];
    assert s.calls[c].id == id && s.calls[c].fate == Outstanding;
    assert CallOk(s.calls[c], IsTarget(s.reader, c), s.idSeq);
    RemovalKeepsPending(s, t, c);
    InvOfUpdate(s, t, c, t.calls[c]);
  }

  lemma LockKeepsInv(s: State, t: State)
    requires Inv(s) && Enabled(s, LockPending) && t == Next(s, LockPending)
    ensures Inv(t)
  {
    forall c | 0 <= c < |s.calls| && s.calls[c].fate == Outstanding
      ensures c in t.reader.todo
    {
      assert s.calls[c].id in s.pending && s.pending[s.calls[c].id] == c;
    }
    QuietStep(s, t);
  }

  lemma UnlockKeepsInv(s: State, t: State)
    requires Inv(s) && Enabled(s, UnlockPending) && t == Next(s, UnlockPending)
    ensures Inv(t)
  {
    assert forall c | 0 <= c < |s.calls| :: s.calls[c].fate != Outstanding;
    QuietStep(s, t);
  }

  // The steps that leave the calls and the map alone.
  lemma QuietStep(s: State, t: State)
    requires Inv(s) && t.calls == s.calls && t.pending == s.pending && t.idSeq == s.idSeq
    requires (!s.reader.Sending? && !t.reader.Sending?) || s.reader == t.reader
    requires ReaderOk(t) && (s.reader.Done? ==> t.reader.Done?)
    ensures Inv(t)
  {
    assert forall c | 0 <= c < |s.calls| :: IsTarget(t.reader, c) == IsTarget(s.reader, c);
  }

  // Every step keeps the invariant.
  lemma NextKeepsInv(s: State, step: Step, t: State)
    requires Inv(s) && Enabled(s, step) && t == Next(s, step)
    ensures Inv(t)
  {
    match step
    case Enter => EnterKeepsInv(s, t);
    case CheckClosed(c) => CallerStep(s, step, c, t);
    case TakeId(c) => TakeIdKeepsInv(s, c, t);
    case MarshalFails(c) => CallerStep(s, step, c, t);
    case Register(c) => RegisterKeepsInv(s, c, t);
    case Write(c, ok) => CallerStep(s, step, c, t);
    case Receive(c) => CallerStep(s, step, c, t);
    case ContextDone(c) => CallerStep(s, step, c, t);
    case Withdraw(c) => WithdrawKeepsInv(s, c, t);
    case ReadLine(_) => QuietStep(s, t);
    case Claim => ClaimKeepsInv(s, t);
    case Send => SendKeepsInv(s, t);
    case ReadFails(_) => QuietStep(s, t);
    case MarkClosed => QuietStep(s, t);
    case LockPending => LockKeepsInv(s, t);
    case FailOne(id) => FailOneKeepsInv(s, id, t);
    case UnlockPending => UnlockKeepsInv(s, t);
    case StopMarks => QuietStep(s, t);
    case StopCloses => QuietStep(s, t);
  }

  lemma CallerStep(s: State, step: Step, c: nat, t: State)
    requires Inv(s) && Enabled(s, step) && t == Next(s, step)
    requires step.CheckClosed? || step.MarshalFails? || step.Write? || step.Receive? || step.ContextDone?
    requires c == step.c
    ensures Inv(t)
  {
    assert CallOk(s.calls[c], IsTarget(s.reader, c), s.idSeq);
    LocalStep(s, c, t.calls[c], t);
  }

  lemma {:induction false} ReachesKeepsInv(s: State, steps: seq<Step>, t: State)
    requires Inv(s) && Reaches(s, steps, t)
    ensures Inv(t)
    decreases |steps|
  {
    if steps != [] {
      NextKeepsInv(s, steps[0], Next(s, steps[0]));
      ReachesKeepsInv(Next(s, steps[0]), steps[1..], t);
    }
  }

  lemma ReachableInv(s: State)
    requires Reachable(s)
    ensures Inv(s)
  {
    var steps :| Reaches(INITIAL, steps, s);
    ReachesKeepsInv(INITIAL, steps, s);
  }
}
