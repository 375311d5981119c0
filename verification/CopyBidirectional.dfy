/** Both directions of a proxied connection (src/copy_bidirectional.rs, TransferState,
    transfer_one_direction and CopyBidirectional::poll). */
module CopyBidirectional {
  import opened Common
  import opened CopyBuffers

  datatype TransferState = Running | ShuttingDown | Finished

  class Direction {
    var state: TransferState
    const copy: CopyBuffer

    /** The writer is shut down only after the stream ended, everything read was written, and
        everything written was flushed. */
    ghost predicate Valid(reader: Reader, writer: Writer)
      reads this, copy, copy.storage, reader, writer
    {
      && copy.Piping(reader, writer)
      && (writer.shut ==> !state.Running?)
      && (!state.Running? ==> reader.source == [] && writer.received == reader.consumed && writer.flushed)
    }

    constructor (copy: CopyBuffer)
      ensures state == Running && this.copy == copy
    {
      state, this.copy := Running, copy;
    }

    method Transfer(budget: bool, reader: Reader, writer: Writer) returns (r: Poll)
      requires Valid(reader, writer)
      modifies this, copy, copy.storage, reader, writer
      ensures Valid(reader, writer)
      ensures copy.storage == old(copy.storage) || fresh(copy.storage)
      ensures reader.consumed + reader.source == old(reader.consumed + reader.source)
      ensures r.Done? <==> state.Finished?
      ensures !old(state).Running? ==> !state.Running?
      ensures old(state).Finished? ==> state.Finished?
      ensures reader.waits >= old(reader.waits) && writer.waits >= old(writer.waits)
      ensures reader.faults >= old(reader.faults) && writer.faults >= old(writer.faults)
      // It stops short only for lack of budget or because a stream was not ready or failed.
      ensures r.Pending? ==>
        (!budget && state.Running?) || reader.waits + writer.waits > old(reader.waits + writer.waits)
      ensures r.Broken? <==> reader.faults + writer.faults > old(reader.faults + writer.faults)
      // A ping that is due stays due only without budget, after the end, or because of the streams.
      ensures copy.needWritePing ==> old(copy.needWritePing)
      ensures !budget || !old(state).Running? ==> copy.needWritePing == old(copy.needWritePing)
      ensures budget && old(state).Running? && copy.needWritePing ==>
        reader.faults + writer.faults + writer.waits > old(reader.faults + writer.faults + writer.waits)
    {
      if state.Running? {
        r := copy.PollCopy(budget, reader, writer);
        if !r.Done? {
          return;
        }
        state := ShuttingDown;
      }
      if state.ShuttingDown? {
        var s := writer.PollShutdown();
        match s
        case Failed => return Broken(ShutdownError);
        case NotReady => return Pending;
        case Count(_) => state := Finished;
      }
      return Done;
    }
  }

  /** A tunnel between the endpoints `a` and `b`. */
  class Tunnel {
    const aToB: Direction
    const bToA: Direction
    const halfCloseTimeout: Option<nat>
    /** When the half-close grace period ends, once it has started. */
    var halfCloseSleep: Option<nat>

    constructor (aToB: Direction, bToA: Direction, halfCloseTimeout: Option<nat>)
      ensures this.aToB == aToB && this.bToA == bToA && this.halfCloseTimeout == halfCloseTimeout
      ensures halfCloseSleep == None
    {
      this.aToB, this.bToA, this.halfCloseTimeout, halfCloseSleep := aToB, bToA, halfCloseTimeout, None;
    }

    ghost predicate Apart(aRead: Reader, aWrite: Writer, bRead: Reader, bWrite: Writer)
      reads this, aToB, bToA, aToB.copy, bToA.copy
    {
      && aToB != bToA && aToB.copy != bToA.copy && aToB.copy.storage != bToA.copy.storage
      && aRead != bRead && aWrite != bWrite
    }

    ghost predicate OneSideClosed()
      reads this, aToB, bToA
    {
      !aToB.state.Running? || !bToA.state.Running?
    }

    ghost predicate BothDone()
      reads this, aToB, bToA
    {
      aToB.state.Finished? && bToA.state.Finished?
    }

    ghost predicate Valid(aRead: Reader, aWrite: Writer, bRead: Reader, bWrite: Writer)
      reads this, aToB, bToA, aToB.copy, bToA.copy, aToB.copy.storage, bToA.copy.storage, aRead, aWrite, bRead, bWrite
    {
      && Apart(aRead, aWrite, bRead, bWrite)
      && aToB.Valid(aRead, bWrite) && bToA.Valid(bRead, aWrite)
      && (halfCloseSleep.Some? ==> halfCloseTimeout.Some? && OneSideClosed())
    }

    /** One poll at time `now`.  Each direction asks for budget on its own.  `pings` says, when the
        ping timer fired, whether `a` and whether `b` support pings. */
    method Poll(now: nat, budgetAB: bool, budgetBA: bool, pings: Option<(bool, bool)>,
      aRead: Reader, aWrite: Writer, bRead: Reader, bWrite: Writer) returns (r: Poll)
      requires Valid(aRead, aWrite, bRead, bWrite)
      modifies this, aToB, bToA, aToB.copy, bToA.copy, aToB.copy.storage, bToA.copy.storage
      modifies aRead, aWrite, bRead, bWrite
      ensures Valid(aRead, aWrite, bRead, bWrite)
      // Ok is returned when both directions are shut down, or when the grace period is over.
      ensures r.Done? <==> BothDone() || (halfCloseSleep.Some? && halfCloseSleep.value <= now && OneSideClosed())
      // Each direction stops short only for lack of budget or because one of its streams was not ready.
      ensures r.Pending? && budgetAB && !aToB.state.Finished? ==>
        aRead.waits + bWrite.waits > old(aRead.waits + bWrite.waits)
      ensures r.Pending? && budgetBA && !bToA.state.Finished? ==>
        bRead.waits + aWrite.waits > old(bRead.waits + aWrite.waits)
      // A direction that fails ends the poll with its error, unless the grace period is over.
      ensures !r.Done? ==>
        (r.Broken? <==> Faults(aRead, aWrite, bRead, bWrite) > old(Faults(aRead, aWrite, bRead, bWrite)))
      // Pings are due only where the other side supports them.
      ensures PingsFollow(old(aToB.copy.needWritePing), old(bToA.copy.needWritePing), pings, budgetAB, budgetBA)
      // The grace period starts at the first poll that ends with exactly one side closed.
      ensures halfCloseSleep ==
        if OneSideClosed() && !BothDone() then
          (match halfCloseTimeout
           case None => old(halfCloseSleep)
           case Some(t) => if old(halfCloseSleep).Some? then old(halfCloseSleep) else Some(now + t))
        else None
      ensures aRead.consumed + aRead.source == old(aRead.consumed + aRead.source)
      ensures bRead.consumed + bRead.source == old(bRead.consumed + bRead.source)
    {
      var ab, ba := PollDirections(budgetAB, budgetBA, pings, aRead, aWrite, bRead, bWrite);
      var expired := Grace(now);
      if expired {
        return Done;
      }
      if ab.Broken? {
        return ab;
      }
      if ba.Broken? {
        return ba;
      }
      return if ab.Done? && ba.Done? then Done else Pending;
    }

    ghost function Faults(aRead: Reader, aWrite: Writer, bRead: Reader, bWrite: Writer): nat
      reads aRead, aWrite, bRead, bWrite
    {
      aRead.faults + aWrite.faults + bRead.faults + bWrite.faults
    }

    /** A ping is due on each direction whose writer supports them. */
    method ArmPings(pings: Option<(bool, bool)>)
      requires aToB.copy != bToA.copy
      modifies aToB.copy`needWritePing, bToA.copy`needWritePing
      ensures pings.None? ==>
        && aToB.copy.needWritePing == old(aToB.copy.needWritePing)
        && bToA.copy.needWritePing == old(bToA.copy.needWritePing)
      ensures pings.Some? ==> aToB.copy.needWritePing == pings.value.1 && bToA.copy.needWritePing == pings.value.0
    {
      if pings.Some? {
        // The buffer of `a` writes to `b`.
        aToB.copy.needWritePing := pings.value.1;
        bToA.copy.needWritePing := pings.value.0;
      }
    }

    /** How the pings stand after a poll: due at most where they were due or the timer made them due,
        and exactly there if the direction had no budget. */
    ghost predicate PingsFollow(wereAB: bool, wereBA: bool, pings: Option<(bool, bool)>, budgetAB: bool, budgetBA: bool)
      reads this, aToB, bToA, aToB.copy, bToA.copy
    {
      var dueAB := if pings.Some? then pings.value.1 else wereAB;
      var dueBA := if pings.Some? then pings.value.0 else wereBA;
      && (aToB.copy.needWritePing ==> dueAB) && (!budgetAB ==> aToB.copy.needWritePing == dueAB)
      && (bToA.copy.needWritePing ==> dueBA) && (!budgetBA ==> bToA.copy.needWritePing == dueBA)
    }

    /** Both directions are polled, one after the other. */
    method PollDirections(budgetAB: bool, budgetBA: bool, pings: Option<(bool, bool)>,
      aRead: Reader, aWrite: Writer, bRead: Reader, bWrite: Writer) returns (ab: Poll, ba: Poll)
      requires Valid(aRead, aWrite, bRead, bWrite)
      modifies aToB, bToA, aToB.copy, bToA.copy, aToB.copy.storage, bToA.copy.storage, aRead, aWrite, bRead, bWrite
      ensures Valid(aRead, aWrite, bRead, bWrite)
      ensures (ab.Done? <==> aToB.state.Finished?) && (ba.Done? <==> bToA.state.Finished?)
      ensures ab.Pending? && budgetAB ==> aRead.waits + bWrite.waits > old(aRead.waits + bWrite.waits)
      ensures ba.Pending? && budgetBA ==> bRead.waits + aWrite.waits > old(bRead.waits + aWrite.waits)
      ensures ab.Broken? || ba.Broken? <==>
        Faults(aRead, aWrite, bRead, bWrite) > old(Faults(aRead, aWrite, bRead, bWrite))
      ensures PingsFollow(old(aToB.copy.needWritePing), old(bToA.copy.needWritePing), pings, budgetAB, budgetBA)
      ensures aRead.consumed + aRead.source == old(aRead.consumed + aRead.source)
      ensures bRead.consumed + bRead.source == old(bRead.consumed + bRead.source)
    {
      hide Ring;
      ArmPings(pings);
      ab := aToB.Transfer(budgetAB, aRead, bWrite);
      ba := bToA.Transfer(budgetBA, bRead, aWrite);
    }

    /** Starts, keeps or cancels the grace period, and says whether it is over. */
    method Grace(now: nat) returns (expired: bool)
      modifies this`halfCloseSleep
      ensures halfCloseSleep ==
        if OneSideClosed() && !BothDone() then
          (match halfCloseTimeout
           case None => old(halfCloseSleep)
           case Some(t) => if old(halfCloseSleep).Some? then old(halfCloseSleep) else Some(now + t))
        else None
      ensures expired <==>
        OneSideClosed() && !BothDone() && halfCloseTimeout.Some? && halfCloseSleep.value <= now
    {
      var oneClosed := !aToB.state.Running? || !bToA.state.Running?;
      var bothDone := aToB.state.Finished? && bToA.state.Finished?;
      expired := false;
      if oneClosed && !bothDone {
        match halfCloseTimeout
        case Some(timeout) =>
          if halfCloseSleep.None? {
            halfCloseSleep := Some(now + timeout);
          }
          expired := halfCloseSleep.value <= now;
        case None =>
      } else {
        halfCloseSleep := None;
      }
    }
  }

  /** A whole connection in one direction: any number of polls, with any budgets and any stream
      behaviour, forwards a prefix of the source; if the writer was ever shut down, all of it; and
      one poll with budget is enough if no stream was ever not ready or failed. */
  method Drive(direction: Direction, reader: Reader, writer: Writer, budgets: seq<bool>) returns (finished: bool)
    requires direction.Valid(reader, writer) && reader.consumed == writer.received == []
    modifies direction, direction.copy, direction.copy.storage, reader, writer
    ensures writer.received <= old(reader.source)
    ensures writer.shut || finished ==> writer.received == old(reader.source) && writer.flushed
    ensures true in budgets
      && reader.waits + writer.waits == old(reader.waits + writer.waits)
      && reader.faults + writer.faults == old(reader.faults + writer.faults)
      ==> finished
  {
    var i := 0;
    finished := false;
    while i < |budgets|
      invariant 0 <= i <= |budgets|
      invariant direction.Valid(reader, writer)
      invariant direction.copy.storage == old(direction.copy.storage) || fresh(direction.copy.storage)
      invariant reader.consumed + reader.source == old(reader.source)
      invariant finished ==> direction.state.Finished?
      invariant reader.waits >= old(reader.waits) && writer.waits >= old(writer.waits)
      invariant reader.faults >= old(reader.faults) && writer.faults >= old(writer.faults)
      invariant true in budgets[..i] && reader.waits + writer.waits == old(reader.waits + writer.waits) ==> finished
    {
      var r := direction.Transfer(budgets[i], reader, writer);
      finished := r.Done?;
      if r.Broken? {
        break;
      }
      i := i + 1;
      assert budgets[..i] == budgets[..i - 1] + [budgets[i - 1]];
    }
    assert budgets[..|budgets|] == budgets;
    assert reader.consumed == writer.received + direction.copy.Contents();
    assert writer.received <= reader.consumed <= old(reader.source);
    if !direction.state.Running? {
      assert reader.consumed + [] == reader.consumed;
    }
  }
}
