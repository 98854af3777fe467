/**
 The driver object itself: the counter, the flag, the connection, the map of channels and the channels,
 which call, readLoop, failPending and Stop share and update in place. How far each call and the reader
 have come is ghost. Every method is one atomic section of the source and is proved to be a step of the
 protocol; failPending, which keeps the lock over its loop, is proved to be a run of it.
 */
module TyphonDriver {
  import opened Wrappers
  import opened TyphonProtocol
  import opened TyphonProperties

  // A run goes on by one step.
  lemma RunSnoc(s: State, steps: seq<Step>, t: State, step: Step, u: State)
    requires Reaches(s, steps, t) && Enabled(t, step) && u == Next(t, step)
    ensures Reaches(s, steps + [step], u)
  {
    One(t, step, [], u);
    assert [step] + [] == [step];
    ReachesTrans(s, steps, t, [step], u);
  }

  lemma RunStart(s: State, step: Step, u: State)
    requires Enabled(s, step) && u == Next(s, step)
    ensures Reaches(s, [step], u)
  {
    One(s, step, [], u);
    assert [step] + [] == [step];
  }

  lemma CanSend(s: State, steps: seq<Step>, t: State)
    requires Inv(s) && Reaches(s, steps, t) && t.reader.Sending?
    ensures Enabled(t, Send) && t.calls[t.reader.c].chan == []
  {
    ReachesKeepsInv(s, steps, t);
    assert CallOk(t.calls[t.reader.c], true, t.idSeq);
  }

  lemma CanFail(s: State, steps: seq<Step>, t: State, id: int)
    requires Inv(s) && Reaches(s, steps, t) && t.reader.FailLocked? && id in t.pending
    ensures Enabled(t, FailOne(id))
  {
    ReachesKeepsInv(s, steps, t);
    assert CallOk(t.calls[t.pending[id]], IsTarget(t.reader, t.pending[id]), t.idSeq);
  }

  lemma AllFailed(s: State, steps: seq<Step>, t: State)
    requires Inv(s) && Reaches(s, steps, t) && t.reader.FailLocked? && t.pending == map[]
    ensures forall c | c in t.reader.todo :: c < |t.calls| && FailedWith(t.calls[c], t.reader.reason)
  {
    ReachesKeepsInv(s, steps, t);
    assert forall c | 0 <= c < |t.calls| :: t.calls[c].fate != Outstanding;
  }

  lemma ClaimIs(s: State, id: int)
    requires s.reader.Probed? && s.reader.line.id == Some(id) && (id in s.pending ==> s.pending[id] < |s.calls|)
    ensures id !in s.pending ==> Next(s, Claim) == s.(reader := Reading)
    ensures id in s.pending ==>
      var c := s.pending[id];
      Next(s, Claim) == State(s.idSeq, s.closed, s.connOpen, s.pending - {id},
          s.calls[c := s.calls[c].(fate := Claimed)], Sending(c, s.reader.line))
  {
  }

  // The claim as the second step of a run: the reader goes on to send exactly if the frame answers a call.
  lemma ClaimRun(s: State, line: Line, probed: State, claimed: State)
    requires s.reader.Reading? && probed == s.(reader := Probed(line)) && claimed == Next(probed, Claim)
    requires line.id.Some?
    ensures Reaches(s, [ReadLine(line), Claim], claimed)
    ensures claimed.reader.Sending? <==> Answers(s, line)
  {
    RunStart(s, ReadLine(line), probed);
    RunSnoc(s, [ReadLine(line)], probed, Claim, claimed);
    assert [ReadLine(line)] + [Claim] == [ReadLine(line), Claim];
  }

  // Every call that had an entry has been sent the failure.
  ghost predicate AllTold(owners: map<int, nat>, calls: seq<Call>, reason: string) {
    forall id | id in owners :: owners[id] < |calls| && FailedWith(calls[owners[id]], reason)
  }

  // When the map is empty the lock can be released.
  lemma Unlocking(s: State, steps: seq<Step>, t: State)
    requires Reaches(s, steps, t) && t.reader.FailLocked? && t.pending == map[]
    ensures Reaches(s, steps + [UnlockPending], t.(reader := Done(t.reader.reason, t.reader.todo)))
  {
    RunSnoc(s, steps, t, UnlockPending, Next(t, UnlockPending));
  }

  // Then every call that was in it has been told.
  lemma AllAreTold(s: State, steps: seq<Step>, t: State, owners: map<int, nat>, reason: string)
    requires Inv(s) && Reaches(s, steps, t) && t.pending == map[]
    requires t.reader == FailLocked(reason, set id | id in owners :: owners[id])
    ensures AllTold(owners, t.calls, reason)
  {
    AllFailed(s, steps, t);
    forall id | id in owners
      ensures owners[id] < |t.calls| && FailedWith(t.calls[owners[id]], reason)
    {
      assert owners[id] in t.reader.todo;
    }
  }

  // A channel of capacity 1.
  class Chan {
    var buf: seq<Message>

    constructor ()
      ensures buf == []
    {
      buf := [];
    }

    // A send that does not block.
    method Send(m: Message)
      requires |buf| < 1
      modifies this
      ensures buf == old(buf) + [m]
    {
      buf := buf + [m];
    }

    method Receive() returns (m: Message)
      requires buf != []
      modifies this
      ensures m == old(buf)[0] && buf == old(buf)[1..]
    {
      m := buf[0];
      buf := buf[1..];
    }
  }

  // The channel belongs to the pending call whose id the frame carries.
  predicate IsAnswered(pending: map<int, Chan>, line: Line, ch: Chan) {
    line.id.Some? && line.id.value in pending && pending[line.id.value] == ch
  }

  // Before its registration a call has no channel.
  predicate Early(pc: Pc) {
    pc.Entered? || pc.Checked? || pc.Numbered?
  }

  class Driver {
    var idSeq: nat
    var closed: bool
    var connOpen: bool
    var pending: map<int, Chan>

    // Where the calls and the reader are, which call a pending id belongs to, and each call's channel.
    ghost var calls: seq<Call>
    ghost var reader: Reader
    ghost var owners: map<int, nat>
    ghost var chans: seq<Chan?>

    ghost function View(): State
      reads this
    {
      State(idSeq, closed, connOpen, owners, calls, reader)
    }

    ghost function Channels(): set<object>
      reads this
    {
      set ch: Chan | ch in chans
    }

    // The map holds the channels of its ids' owners; each call has its own channel, with what the call
    // is waiting to receive in it.
    ghost predicate Linked()
      reads this, Channels()
    {
      && |chans| == |calls| && pending.Keys == owners.Keys
      && (forall id | id in pending :: owners[id] < |chans| && chans[owners[id]] == pending[id])
      && (forall c | 0 <= c < |chans| && chans[c] != null :: chans[c].buf == calls[c].chan)
      && (forall c | 0 <= c < |chans| && Early(calls[c].pc) :: chans[c] == null && calls[c].chan == [])
      && (forall c, d | 0 <= c < d < |chans| && chans[c] != null :: chans[c] != chans[d])
    }

    constructor ()
      ensures Linked() && View() == INITIAL
    {
      idSeq, closed, connOpen, pending := 0, false, true, map[];
      calls, reader, owners, chans := [], Reading, map[], [];
    }

    // call: entry and the check of the closed flag.
    method BeginCall() returns (err: bool, ghost c: nat)
      requires Linked()
      modifies this
      ensures Linked() && c == |old(calls)| && chans == old(chans) + [null]
      ensures View() == Next(Next(old(View()), Enter), CheckClosed(c))
      ensures err == old(closed)
    {
      err := closed;
      c := |calls|;
      calls := calls + [Call(if err then Returned(ClosedError) else Checked, 0, [], 0, Unregistered, false)];
      chans := chans + [null];
    }

    method AddId(ghost c: nat) returns (id: nat)
      requires Linked() && At(View(), c, Checked)
      modifies this
      ensures Linked() && chans == old(chans)
      ensures View() == Next(old(View()), TakeId(c)) && id == calls[c].id == old(idSeq) + 1
    {
      idSeq := idSeq + 1;
      id := idSeq;
      calls := calls[c := calls[c].(pc := Numbered, id := id)];
    }

    // The parameters and the frame are marshalled, which may fail.
    method MarshalFrame(ghost c: nat) returns (ok: bool)
      requires Linked() && At(View(), c, Numbered)
      modifies this
      ensures Linked() && chans == old(chans)
      ensures View() == if ok then old(View()) else Next(old(View()), MarshalFails(c))
    {
      ok := *;
      if !ok {
        calls := calls[c := calls[c].(pc := Returned(MarshalError))];
      }
    }

    // A new channel, and the first lock section of call.
    method AddPending(ghost c: nat, id: nat) returns (ch: Chan)
      requires Linked() && At(View(), c, Numbered) && !reader.FailLocked? && id == calls[c].id
      modifies this
      ensures Linked() && fresh(ch) && chans == old(chans)[c := ch]
      ensures ch.buf == [] && pending == old(pending)[id := ch]
      ensures View() == Next(old(View()), Register(c))
    {
      ch := new Chan();
      pending := pending[id := ch];
      calls := calls[c := calls[c].(pc := Registered, fate := Outstanding, late := reader.Done?)];
      owners := owners[id := c];
      chans := chans[c := ch];
    }

    // The frame is written; whether that works is up to the connection, and it cannot once that is closed.
    method WriteFrame(ghost c: nat) returns (ok: bool)
      requires Linked() && At(View(), c, Registered)
      modifies this
      ensures Linked() && chans == old(chans)
      ensures Enabled(old(View()), Write(c, ok)) && View() == Next(old(View()), Write(c, ok))
    {
      ok := false;
      if connOpen {
        ok := *;
      }
      calls := calls[c := calls[c].(pc := if ok then Waiting else WriteFailed)];
    }

    // The select: a message if there is one and it is picked, else the end of the context.
    method Await(ghost c: nat, ch: Chan) returns (m: Option<Message>)
      requires Linked() && At(View(), c, Waiting) && chans[c] == ch
      modifies this, ch
      ensures Linked() && chans == old(chans)
      ensures m.Some? ==> Enabled(old(View()), Receive(c)) && old(ch.buf) == [m.value] + ch.buf
      ensures m.None? ==> ch.buf == old(ch.buf)
      ensures View() == Next(old(View()), if m.Some? then Receive(c) else ContextDone(c))
    {
      var picked: bool := *;
      if ch.buf != [] && picked {
        var received := ch.Receive();
        m := Some(received);
        calls := calls[c := calls[c].(pc := Returned(Received(received)), chan := calls[c].chan[1..])];
      } else {
        m := None;
        calls := calls[c := calls[c].(pc := TimedOut)];
      }
    }

    // delete(d.pending, id)
    method DropEntry(id: int)
      requires Linked()
      modifies this`pending, this`owners
      ensures Linked() && pending == old(pending) - {id} && owners == old(owners) - {id}
      ensures id !in old(pending) ==> owners == old(owners)
    {
      pending := pending - {id};
      owners := owners - {id};
    }

    // The lock section after a failed write or at the end of the context.
    method RemovePending(ghost c: nat, id: nat)
      requires Linked() && (At(View(), c, WriteFailed) || At(View(), c, TimedOut))
      requires !reader.FailLocked? && id == calls[c].id
      modifies this
      ensures Linked() && chans == old(chans)
      ensures View() == Next(old(View()), Withdraw(c)) && pending == old(pending) - {id as int}
    {
      ghost var o := if calls[c].pc.WriteFailed? then WriteError else Cancelled;
      ghost var fate := if id in owners then Withdrawn else calls[c].fate;
      DropEntry(id);
      calls := calls[c := calls[c].(pc := Returned(o), fate := fate)];
    }

    // The lock section of readLoop: the channel is looked up and its entry deleted; null for an unknown id.
    method ClaimPending(id: int) returns (ch: Chan?)
      requires Linked() && reader.Probed? && reader.line.id == Some(id)
      modifies this
      ensures Linked() && chans == old(chans)
      ensures View() == Next(old(View()), Claim)
      ensures if ch == null then reader.Reading? else reader.Sending? && reader.c < |chans| && chans[reader.c] == ch
      ensures ch == (if id in old(pending) then old(pending)[id] else null) && pending == old(pending) - {id}
    {
      ch := if id in pending then pending[id] else null;
      ghost var all, line := owners, reader.line;
      ClaimIs(View(), id);
      DropEntry(id);
      if ch != null {
        ghost var c := all[id];
        calls := calls[c := calls[c].(fate := Claimed)];
        reader := Sending(c, line);
      } else {
        reader := Reading;
      }
    }

    method SendReply(ch: Chan, line: Line)
      requires Linked() && reader.Sending? && line == reader.line && ch.buf == []
      requires reader.c < |chans| && chans[reader.c] == ch
      modifies this, ch
      ensures Linked() && chans == old(chans) && pending == old(pending)
      ensures View() == Next(old(View()), Send)
      ensures ch.buf == [Reply(line)]
    {
      ghost var c := reader.c;
      ch.Send(Reply(line));
      calls := calls[c := Sent(calls[c], Reply(line))];
      reader := Reading;
    }

    // One iteration of readLoop, as part of a run: a frame without an id or with an unknown one is
    // dropped, and the send never blocks.
    method HandleLine(line: Line) returns (ghost steps: seq<Step>)
      requires Linked() && Inv(View()) && reader.Reading?
      modifies this, Channels()
      ensures Linked() && chans == old(chans)
      ensures Reaches(old(View()), steps, View()) && reader.Reading?
      ensures line.id.None? ==> steps == [ReadLine(line)]
      ensures line.id.Some? ==>
        steps == if Answers(old(View()), line) then [ReadLine(line), Claim, Send] else [ReadLine(line), Claim]
      ensures pending == if line.id.Some? then old(pending) - {line.id.value} else old(pending)
      ensures forall ch | ch in chans && ch != null ::
        ch.buf == if IsAnswered(old(pending), line, ch) then [Reply(line)] else old(ch.buf)
    {
      ghost var s := View();
      RunStart(s, ReadLine(line), Next(s, ReadLine(line)));
      steps := [ReadLine(line)];
      if line.id.Some? {
        reader := Probed(line);
        ghost var answered;
        steps, answered := Dispatch(line, line.id.value, s);
      }
    }

    // The part of the iteration that follows the probe.
    method Dispatch(line: Line, id: int, ghost s: State) returns (ghost steps: seq<Step>, ghost answered: Chan?)
      requires Linked() && Inv(s) && s.reader.Reading?
      requires View() == s.(reader := Probed(line)) && line.id == Some(id)
      modifies this, Channels()
      ensures Linked() && chans == old(chans)
      ensures Reaches(s, steps, View()) && reader.Reading?
      ensures steps == if Answers(s, line) then [ReadLine(line), Claim, Send] else [ReadLine(line), Claim]
      ensures pending == old(pending) - {id}
      ensures answered == if id in old(pending) then old(pending)[id] else null
      ensures answered != null ==> answered.buf == [Reply(line)]
      ensures forall ch | ch in chans && ch != null && ch != answered :: ch.buf == old(ch.buf)
    {
      ghost var probed := View();
      var ch := ClaimPending(id);
      answered := ch;
      steps := [ReadLine(line), Claim];
      ClaimRun(s, line, probed, View());
      if ch != null {
        steps := Deliver(ch, line, s, steps);
      }
    }

    // The send, as the next step of a run.
    method Deliver(ch: Chan, line: Line, ghost s: State, ghost before: seq<Step>) returns (ghost steps: seq<Step>)
      requires Linked() && Inv(s) && Reaches(s, before, View())
      requires reader.Sending? && line == reader.line && reader.c < |chans| && chans[reader.c] == ch
      modifies this, ch
      ensures Linked() && chans == old(chans)
      ensures steps == before + [Send] && Reaches(s, steps, View()) && reader.Reading?
      ensures pending == old(pending) && ch.buf == [Reply(line)]
    {
      ghost var claimed := View();
      CanSend(s, before, claimed);
      SendReply(ch, line);
      steps := before + [Send];
      RunSnoc(s, before, claimed, Send, View());
    }

    // readLoop on a read error: closed is set before failPending runs.
    method ConnectionFails(reason: string)
      requires Linked() && reader.Reading?
      modifies this
      ensures Linked() && chans == old(chans)
      ensures View() == Next(Next(old(View()), ReadFails(reason)), MarkClosed) && closed
    {
      closed := true;
      reader := Failing(reason);
    }

    // all is the map as it was: the channels of entries that are gone hold the failure, the others
    // are empty still.
    ghost predicate ToldSoFar(all: map<int, Chan>, reason: string)
      reads this, all.Values
    {
      && pending.Keys <= all.Keys
      && (forall id | id in pending :: pending[id] == all[id])
      && (forall id | id in all :: all[id].buf == if id in pending then [] else [Failure(reason)])
    }

    // Each entry has a channel of its own, and nothing has been sent on it.
    lemma PendingAreEmpty()
      requires Linked() && Inv(View())
      ensures forall i, j | i in pending && j in pending && i != j :: pending[i] != pending[j]
      ensures forall id | id in pending :: pending[id].buf == []
    {
      forall id | id in pending
        ensures pending[id].buf == [] && calls[owners[id]].id == id
      {
        assert CallOk(calls[owners[id]], IsTarget(reader, owners[id]), idSeq);
      }
    }

    // One iteration of failPending's loop.
    method FailEntry(id: int, reason: string)
      requires Linked() && reader.FailLocked? && reason == reader.reason && id in pending && pending[id].buf == []
      modifies this, pending[id]
      ensures Linked() && chans == old(chans) && reader == old(reader)
      ensures pending == old(pending) - {id}
      ensures View() == Next(old(View()), FailOne(id))
      ensures old(pending)[id].buf == [Failure(reason)]
    {
      ghost var c := owners[id];
      pending[id].Send(Failure(reason));
      calls := calls[c := Sent(calls[c], Failure(reason)).(fate := Failed)];
      DropEntry(id);
    }

    // A key that ranging over a map may yield.
    method AnyKey(m: map<int, Chan>) returns (id: int)
      requires m != map[]
      ensures id in m
    {
      assert m.Items != {};
      var item :| item in m.Items;
      id := item.0;
    }

    method FailNext(reason: string, ghost s: State, ghost before: seq<Step>, ghost all: map<int, Chan>)
        returns (ghost steps: seq<Step>)
      requires Linked() && Inv(s) && Reaches(s, before, View())
      requires reader.FailLocked? && reason == reader.reason && pending != map[]
      requires ToldSoFar(all, reason) && forall i, j | i in all && j in all && i != j :: all[i] != all[j]
      modifies this, Channels()
      ensures Linked() && Reaches(s, steps, View()) && reader == old(reader) && chans == old(chans)
      ensures pending.Keys < old(pending).Keys && ToldSoFar(all, reason)
    {
      ghost var prior := View();
      var id := AnyKey(pending);
      CanFail(s, before, prior, id);
      assert forall i | i in all && i != id :: all[i] != pending[id];
      FailEntry(id, reason);
      steps := before + [FailOne(id)];
      RunSnoc(s, before, prior, FailOne(id), View());
    }

    // The loop of failPending, over the map in any order, under the lock: it never blocks on a send.
    method FailAll(reason: string, ghost s: State, ghost before: seq<Step>) returns (ghost steps: seq<Step>)
      requires Linked() && Inv(s) && Reaches(s, before, View())
      requires reader.FailLocked? && reason == reader.reason
      modifies this, Channels()
      ensures Linked() && Reaches(s, steps, View()) && reader == old(reader) && chans == old(chans)
      ensures pending == map[] && owners == map[] && ToldSoFar(old(pending), reason)
    {
      steps := before;
      ReachesKeepsInv(s, before, View());
      PendingAreEmpty();
      ghost var all := pending;
      while pending != map[]
        invariant Linked() && reader == old(reader) && chans == old(chans) && Reaches(s, steps, View())
        invariant ToldSoFar(all, reason)
        decreases pending.Keys
      {
        steps := FailNext(reason, s, steps, all);
      }
    }

    // failPending: it runs to its end, empties the map, and every call that was in the map is sent
    // the failure.
    method FailPending(reason: string) returns (ghost steps: seq<Step>)
      requires Linked() && Inv(View()) && reader == Failing(reason)
      modifies this, Channels()
      ensures Linked() && chans == old(chans)
      ensures Reaches(old(View()), steps, View()) && pending == map[] && reader.Done?
      ensures AllTold(old(owners), calls, reason)
      ensures forall id | id in old(pending) :: old(pending)[id].buf == [Failure(reason)]
    {
      ghost var s := View();
      ghost var locked := Next(s, LockPending);
      RunStart(s, LockPending, locked);
      reader := locked.reader;
      steps := FailAll(reason, s, [LockPending]);
      AllAreTold(s, steps, View(), s.pending, reason);
      Unlocking(s, steps, View());
      reader := Done(reader.reason, reader.todo);
      steps := steps + [UnlockPending];
    }

    method Stop()
      requires Linked()
      modifies this
      ensures Linked() && chans == old(chans)
      ensures View() == Next(Next(old(View()), StopMarks), StopCloses) && closed && !connOpen
    {
      closed := true;
      connOpen := false;
    }
  }
}
