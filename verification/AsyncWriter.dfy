/** The writer object (include/native_streaming/async_writer.hpp, src/async_writer.cpp). Its methods
    are the handlers of the source; each one moves the abstract state as WriteQueue says. */
module AsyncWriters {
  import opened Common
  import opened WriteQueue

  class AsyncWriter {
    // fields of the source
    var timeoutReached: bool
    var writeTasksQueue: seq<Entry>

    // the io_context and the stream, as far as the writer sees them
    var posted: seq<Batch>
    var writeOutstanding: bool
    var expiredCallbacks: nat
    var now: int

    ghost var log: Log

    ghost function Abs(): State
      reads this
    {
      State(posted, timeoutReached, writeTasksQueue, writeOutstanding, expiredCallbacks, now, log)
    }

    constructor (steadyNow: int)
      ensures Abs() == Init(steadyNow)
    {
      timeoutReached := false;
      writeTasksQueue := [];
      posted := [];
      writeOutstanding := false;
      expiredCallbacks := 0;
      now := steadyNow;
      log := Init(steadyNow).log;
    }

    method ScheduleWrite(batch: Batch)
      modifies this
      ensures Abs() == Step(old(Abs()), Schedule(batch))
    {
      posted := posted + [batch];
      log := log.(scheduled := log.scheduled + [batch]);
    }

    method QueueBatchWrite(batch: Batch)
      modifies this
      ensures Abs() == WriteQueue.QueueBatchWrite(old(Abs()), batch)
    {
      if timeoutReached {
        log := log.(refused := log.refused + [batch]);
        return;
      }
      var deadlineTimer: Option<Timer> := None;
      if batch.deadline.Some? {
        var deadlineValue := batch.deadline.value;
        if now > deadlineValue {
          log := log.(refused := log.refused + [batch]);
          OnTimeoutReached();
          return;
        }
        deadlineTimer := SetupDeadlineTimer(deadlineValue);
      }
      var writing := writeTasksQueue != [];
      writeTasksQueue := writeTasksQueue + [Entry(batch, deadlineTimer)];
      log := log.(accepted := log.accepted + [batch]);
      if !writing {
        DoWrite(writeTasksQueue[0]);
      }
    }

    method DoWrite(tasksWithDeadline: Entry)
      requires writeTasksQueue != [] && tasksWithDeadline == writeTasksQueue[0]
      modifies this
      ensures Abs() == WriteQueue.DoWrite(old(Abs()))
    {
      if timeoutReached {
        return;
      }
      var tasks := tasksWithDeadline.batch.tasks;
      var buffers: seq<seq<byte>> := [];
      for i := 0 to |tasks|
        invariant |buffers| == i && forall k :: 0 <= k < i ==> buffers[k] == tasks[k].buffer
      {
        buffers := buffers + [tasks[i].buffer];
      }
      assert buffers == Buffers(tasksWithDeadline.batch);
      // async_write(buffers, writeDone)
      writeOutstanding := true;
      log := log.(issued := log.issued + [buffers]);
    }

    method WriteDone(ok: bool)
      requires writeOutstanding && writeTasksQueue != []
      modifies this
      ensures Abs() == CompleteWrite(old(Abs()), ok)
    {
      writeOutstanding := false;
      CallHandlers(writeTasksQueue[0].batch);
      var deadlineTimer := writeTasksQueue[0].timer;
      if deadlineTimer.Some? {
        CancelDeadlineTimer();
      }
      log := log.(completed := log.completed + [writeTasksQueue[0].batch]);
      writeTasksQueue := writeTasksQueue[1..];
      if ok {
        // connectionAliveCallback()
        log := log.(alive := log.alive + 1);
        if writeTasksQueue != [] {
          DoWrite(writeTasksQueue[0]);
        }
      } else {
        log := log.(errors := log.errors + 1);
      }
    }

    /** The handlers of a batch's tasks, one after the other. */
    method CallHandlers(batch: Batch)
      modifies this`log
      ensures log == old(log).(handlers := old(log).handlers + BatchHandlers(batch))
      ensures |log.handlers| == |old(log).handlers| + |batch.tasks|
      ensures forall i :: 0 <= i < |batch.tasks| ==>
                log.handlers[|old(log).handlers| + i] == batch.tasks[i].handler
    {
      var tasks := batch.tasks;
      for i := 0 to |tasks|
        invariant log == old(log).(handlers := old(log).handlers + BatchHandlers(batch)[..i])
      {
        // handler()
        log := log.(handlers := log.handlers + [tasks[i].handler]);
      }
    }

    /** cancel() removes a wait that is still armed; a callback that is already queued stays. */
    method CancelDeadlineTimer()
      requires writeTasksQueue != [] && writeTasksQueue[0].timer.Some?
      modifies this`writeTasksQueue
      ensures writeTasksQueue == old(writeTasksQueue)[0 := old(writeTasksQueue)[0].(timer :=
                if old(writeTasksQueue)[0].timer.value.Armed? then None else old(writeTasksQueue)[0].timer)]
    {
      if writeTasksQueue[0].timer.value.Armed? {
        writeTasksQueue := writeTasksQueue[0 := writeTasksQueue[0].(timer := None)];
      }
    }

    method OnTimeoutReached()
      modifies this
      ensures Abs() == WriteQueue.OnTimeoutReached(old(Abs()))
    {
      if timeoutReached {
        return;
      }
      timeoutReached := true;
      // writeTaskTimeoutHandler()
      log := log.(timedOut := log.timedOut + 1);
    }

    method SetupDeadlineTimer(deadline: int) returns (timer: Option<Timer>)
      ensures timer == Some(Armed(deadline))
    {
      timer := Some(Armed(deadline));
    }

    /** The callback that setupDeadlineTimer passes to async_wait. */
    method OnDeadlineTimer(aborted: bool)
      requires aborted || expiredCallbacks > 0
      modifies this
      ensures Abs() == Step(old(Abs()), TimerCallback(aborted))
    {
      if aborted {
        return;
      }
      expiredCallbacks := expiredCallbacks - 1;
      OnTimeoutReached();
    }

    /** The clock reaches the expiry of an armed timer: its callback is queued. */
    method ExpireTimer(i: nat)
      modifies this
      ensures Abs() == Step(old(Abs()), Expire(i))
    {
      if i < |writeTasksQueue| {
        var timer := writeTasksQueue[i].timer;
        if timer.Some? && timer.value.Armed? && timer.value.expiry <= now {
          writeTasksQueue := writeTasksQueue[i := writeTasksQueue[i].(timer := Some(Expired))];
          expiredCallbacks := expiredCallbacks + 1;
        }
      }
    }

    /** The io_context delivers one event; one that cannot happen now is skipped. */
    method Deliver(e: Event)
      requires WriteQueue.Inv(Abs())
      modifies this
      ensures Abs() == Step(old(Abs()), e)
      ensures WriteQueue.Inv(Abs())
    {
      ghost var before := Abs();
      StepKeepsInv(before, e);
      match e
      case Schedule(batch) =>
        ScheduleWrite(batch);
      case RunPosted =>
        if posted != [] {
          var batch := posted[0];
          posted := posted[1..];
          QueueBatchWrite(batch);
        }
      case WriteDone(ok) =>
        if writeOutstanding {
          WriteDone(ok);
        }
      case Expire(i) =>
        ExpireTimer(i);
      case TimerCallback(aborted) =>
        if aborted || expiredCallbacks > 0 {
          OnDeadlineTimer(aborted);
        }
      case Advance(to) =>
        if to > now {
          now := to;
        }
    }
  }
}
