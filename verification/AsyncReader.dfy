/** The reader object (include/native_streaming/async_reader.hpp, src/async_reader.cpp). read,
    readDone and doRead call each other as in the source; the cycle on buffered bytes is proved to
    terminate and to do what one call of Parse does. */
module AsyncReaders {
  import opened Common
  import opened ReadSequence

  class AsyncReader<S> {
    // what the handlers do; the handler itself is part of a task
    const onRead: Handlers<S>

    // fields of the source
    var pendingTask: ReadTask<S>
    var buffer: seq<byte>

    // what the io_context has outstanding for this reader
    var phase: Phase

    ghost var log: Log<S>

    ghost function Abs(): State<S>
      reads this
    {
      State(phase, pendingTask, buffer, log)
    }

    constructor (onRead: Handlers<S>)
      ensures Abs() == Init() && this.onRead == onRead
    {
      this.onRead := onRead;
      pendingTask := Finish;
      buffer := [];
      phase := Idle;
      log := Init().log;
    }

    /** Only for a reader without an active sequence: there is a single slot for the pending task. */
    method ScheduleRead(handler: S, size: pos)
      requires phase.Idle?
      modifies this
      ensures Abs() == Step(onRead, old(Abs()), Schedule(handler, size))
    {
      pendingTask := ReadTask(handler, size);
      phase := Posted;
    }

    /** The handler that scheduleRead posts. */
    method RunPosted()
      requires Inv(Abs()) && phase.Posted?
      modifies this
      ensures Abs() == Step(onRead, old(Abs()), ReadSequence.RunPosted)
    {
      log := log.(started := log.started + [Sequence(pendingTask, None)]);
      DoRead(pendingTask.size);
    }

    method DoRead(bytesToRead: pos)
      requires pendingTask.ReadTask? && bytesToRead == pendingTask.size
      modifies this
      ensures Abs() == ReadSequence.DoRead(onRead, old(Abs()))
      decreases |buffer|, 2
    {
      Read(bytesToRead);
    }

    method Read(bytesToRead: pos)
      requires pendingTask.ReadTask? && bytesToRead == pendingTask.size
      modifies this
      ensures Abs() == ReadSequence.DoRead(onRead, old(Abs()))
      decreases |buffer|, 1
    {
      var bytesReady := BufferSize();
      if bytesReady >= bytesToRead {
        ReadDone(true);
      } else {
        // async_read(transfer_at_least(bytesToRead - bytesReady), readDone)
        phase := Waiting(bytesToRead - bytesReady);
        assert log.calls + [] == log.calls;
      }
    }

    method ReadDone(ok: bool)
      requires pendingTask.ReadTask? && (ok ==> |buffer| >= pendingTask.size)
      modifies this
      ensures ok ==> Abs() == ReadSequence.DoRead(onRead, old(Abs()))
      ensures !ok ==> Abs() == ReportError(old(Abs()))
      decreases |buffer|, 0
    {
      if ok {
        // connectionAliveCallback()
        log := log.(alive := log.alive + 1);
        var readHandler := pendingTask.handler;
        var readSize := pendingTask.size;
        ghost var before := Abs();
        log := log.(calls := log.calls + [Call(readHandler, buffer[..readSize])]);
        pendingTask := onRead(readHandler, buffer[..readSize]);
        Consume(readSize);
        ghost var rest := Parse(onRead, pendingTask, buffer);
        Associative(before.log.calls, [Call(readHandler, before.buffer[..readSize])], rest.calls);
        if pendingTask.ReadTask? {
          DoRead(pendingTask.size);
        } else {
          phase := Idle;
        }
      } else {
        phase := Idle;
        log := log.(errors := log.errors + 1);
      }
    }

    method BufferSize() returns (size: nat)
      ensures size == |buffer|
    {
      size := |buffer|;
    }

    method Consume(size: nat)
      requires size <= |buffer|
      modifies this`buffer
      ensures buffer == old(buffer)[size..]
    {
      buffer := buffer[size..];
    }

    /** The outstanding async_read completes: its bytes are in the stream buffer, then readDone runs. */
    method OnReadCompleted(bytes: seq<byte>, ok: bool)
      requires Inv(Abs()) && phase.Waiting? && (ok ==> |bytes| >= phase.deficit)
      modifies this
      ensures Abs() == Step(onRead, old(Abs()), if ok then Arrive(bytes) else Fail(bytes))
      ensures Inv(Abs())
    {
      ghost var before := Abs();
      buffer := buffer + bytes;
      log := log.(received := log.received + bytes);
      if !ok {
        log := MarkFailed(Receive(before, bytes), |before.log.received|).log;
      }
      ReadDone(ok);
      StepKeepsInv(onRead, before, if ok then Arrive(bytes) else Fail(bytes));
    }
  }
}
