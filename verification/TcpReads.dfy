/**
 * Polling reads of a TCP link's data, interleaved with its receiver thread message by message, and with the starts of
 * commands on the same link: which of the bytes received get to the reader.
 */
module TcpReads {
  import opened Results
  import opened Bytes
  import opened CmdDescs
  import opened TcpWire
  import opened TcpLinks
  import opened TcpRuns

  datatype Step =
    | Receive(m: Msg)
    | Break(turn: Turn, end: StreamEnd)
    | ReadUpTo(room: nat)
    | ExecStart

  function Apply(l: Link, step: Step): Link {
    match step
    case Receive(m) => Handle(l, m)
    case Break(turn, end) => HandleBreak(l, turn, end)
    case ReadUpTo(room) => AfterPolledRead(l, room)
    case ExecStart => ExecStarted(l)
  }

  function Run(l: Link, run: seq<Step>): Link
    decreases |run|
  {
    if run == [] then l else Run(Apply(l, run[0]), run[1..])
  }

  /** What the reads of a run get, one after the other. */
  function BytesRead(l: Link, run: seq<Step>): seq<byte>
    decreases |run|
  {
    if run == [] then []
    else (if run[0].ReadUpTo? then Readable(l, run[0].room) else []) + BytesRead(Apply(l, run[0]), run[1..])
  }

  /** The data of a run's messages that finds room when it comes in; the rest is dropped. */
  function BytesTaken(l: Link, run: seq<Step>): seq<byte>
    decreases |run|
  {
    if run == [] then []
    else
      (if run[0].Receive? && run[0].m.Data? && |l.buffered| + |run[0].m.bytes| <= l.bufferSize then run[0].m.bytes else [])
      + BytesTaken(Apply(l, run[0]), run[1..])
  }

  /** A link read by polling. */
  predicate Polling(l: Link) {
    !l.datCallback && l.pollingMode
  }

  lemma StepConserves(l: Link, step: Step)
    requires Polling(l)
    ensures Polling(Apply(l, step))
    ensures l.buffered
            + (if step.Receive? && step.m.Data? && |l.buffered| + |step.m.bytes| <= l.bufferSize then step.m.bytes else [])
         == (if step.ReadUpTo? then Readable(l, step.room) else []) + Apply(l, step).buffered
  {
  }

  /** Over any run, nothing doubled and nothing out of order: what was there and has come in is what was read and is there. */
  lemma {:induction false} ReadInOrder(l: Link, run: seq<Step>)
    requires Polling(l)
    ensures l.buffered + BytesTaken(l, run) == BytesRead(l, run) + Run(l, run).buffered
    decreases |run|
  {
    if run == [] {
      assert l.buffered + [] == [] + l.buffered;
    } else {
      var step := run[0];
      var l1 := Apply(l, step);
      StepConserves(l, step);
      ReadInOrder(l1, run[1..]);
      var taken := if step.Receive? && step.m.Data? && |l.buffered| + |step.m.bytes| <= l.bufferSize then step.m.bytes else [];
      var read := if step.ReadUpTo? then Readable(l, step.room) else [];
      Reassociate(l.buffered, taken, BytesTaken(l1, run[1..]));
      Reassociate(read, l1.buffered, BytesTaken(l1, run[1..]));
      Reassociate(read, BytesRead(l1, run[1..]), Run(l1, run[1..]).buffered);
    }
  }

  /** The receiver thread has ended with an error, and no command has been started since. */
  predicate ErrorStands(run: seq<Step>) {
    exists i ::
      && 0 <= i < |run| && run[i].Break? && LeavesError(run[i].turn)
      && forall j :: i < j < |run| ==> !run[j].ExecStart?
  }

  lemma StepLeavesError(l: Link, step: Step)
    ensures Apply(l, step).recvError == SUCCESS
       <==> step.ExecStart? || (l.recvError == SUCCESS && !(step.Break? && LeavesError(step.turn)))
  {
    if step.Receive? {
      HandleKeepsError(l, step.m);
    }
  }

  lemma {:induction false} ErrorIffStands(l: Link, run: seq<Step>)
    ensures Run(l, run).recvError != SUCCESS
       <==> ErrorStands(run) || (l.recvError != SUCCESS && forall j :: 0 <= j < |run| ==> !run[j].ExecStart?)
    decreases |run|
  {
    if run != [] {
      var rest := run[1..];
      StepLeavesError(l, run[0]);
      ErrorIffStands(Apply(l, run[0]), rest);
      StandsAfterFirst(run);
    }
  }

  lemma StandsAfterFirst(run: seq<Step>)
    requires run != []
    ensures ErrorStands(run)
       <==> || ErrorStands(run[1..])
            || (run[0].Break? && LeavesError(run[0].turn) && forall j :: 0 <= j < |run[1..]| ==> !run[1..][j].ExecStart?)
  {
    var rest := run[1..];
    assert forall j :: 0 <= j < |rest| ==> rest[j] == run[j + 1];
    if ErrorStands(rest) {
      var i :| 0 <= i < |rest| && rest[i].Break? && LeavesError(rest[i].turn)
               && forall j :: i < j < |rest| ==> !rest[j].ExecStart?;
      assert run[i + 1].Break?;
      forall j | i + 1 < j < |run| ensures !run[j].ExecStart? {
        assert run[j] == rest[j - 1];
      }
    } else if ErrorStands(run) {
      var i :| 0 <= i < |run| && run[i].Break? && LeavesError(run[i].turn)
               && forall j :: i < j < |run| ==> !run[j].ExecStart?;
      if i > 0 {
        assert rest[i - 1].Break?;
        forall j | i - 1 < j < |rest| ensures !rest[j].ExecStart? {
          assert rest[j] == run[j + 1];
        }
      }
    }
  }

  /**
   * Over any run on a link without an error, every byte that has come in and found room gets to a reader who reads once
   * more, if and only if there is none left to read, or no error stands: a break keeps what is buffered from the reader.
   */
  lemma AllReachesReaderIff(l: Link, run: seq<Step>, room: nat)
    requires Polling(l) && l.recvError == SUCCESS && l.buffered == [] && |Run(l, run).buffered| <= room
    ensures BytesRead(l, run + [ReadUpTo(room)]) == BytesTaken(l, run) <==> Run(l, run).buffered == [] || !ErrorStands(run)
  {
    ReadInOrder(l, run);
    ErrorIffStands(l, run);
    RunKeepsPolling(l, run);
    ReadsAppend(l, run, room);
    assert [] + BytesTaken(l, run) == BytesTaken(l, run);
    var w := Run(l, run);
    if ErrorStands(run) {
      assert |BytesRead(l, run) + w.buffered| == |BytesRead(l, run)| + |w.buffered|;
    }
  }

  lemma {:induction false} RunKeepsPolling(l: Link, run: seq<Step>)
    requires Polling(l)
    ensures Polling(Run(l, run))
    decreases |run|
  {
    if run != [] {
      StepConserves(l, run[0]);
      RunKeepsPolling(Apply(l, run[0]), run[1..]);
    }
  }

  lemma {:induction false} ReadsAppend(l: Link, run: seq<Step>, room: nat)
    ensures BytesRead(l, run + [ReadUpTo(room)]) == BytesRead(l, run) + Readable(Run(l, run), room)
    decreases |run|
  {
    var all := run + [ReadUpTo(room)];
    if run == [] {
      assert all[1..] == [];
    } else {
      assert all[1..] == run[1..] + [ReadUpTo(room)];
      ReadsAppend(Apply(l, run[0]), run[1..], room);
      Reassociate(if run[0].ReadUpTo? then Readable(l, run[0].room) else [], BytesRead(Apply(l, run[0]), run[1..]),
                  Readable(Run(l, run), room));
    }
  }

  /** A whole connection: once its stream has ended, what is buffered can be read if and only if it ended within a command. */
  lemma ReadableAfterStreamIff(l: Link, s: seq<byte>, e: StreamEnd)
    requires Polling(l) && l.recvError == SUCCESS
    ensures CanRead(RunLoop(l, s, e)) <==> RunLoop(l, s, e).buffered != [] && LastTurn(s) == BrokenInCommand
  {
    LoopHandlesReceived(l, s, e);
    HandlingKeepsError(l, ReceiveAll(s));
  }

  /** A peer that sends and closes: a reader who comes after that gets nothing of what has arrived. */
  lemma SentAndClosedIsLost(l: Link, data: seq<byte>, room: nat)
    requires Polling(l) && l.recvError == SUCCESS && l.buffered == [] && 0 < |data| <= l.bufferSize && Fits(|data|)
    ensures var w := RunLoop(l, Encode(Data(data)), Closed); w.buffered == data && Readable(w, room) == []
  {
    SendableReceived(Data(data), []);
    assert Encode(Data(data)) + [] == Encode(Data(data));
    assert ReceiveTurn([]) == BrokenAtHeader;
  }
}
