/** `Connection` of redisconn/conn.go with its critical sections as methods.

    Each method is one atomic step of the protocol in module Pipeline; its contract says that it
    takes exactly that step and keeps the invariant. */
module Connections {
  import opened Errors
  import opened Pipeline
  import opened PipelineInvariant
  import opened PipelineHistory

  class Connection {
    var state: Phase
    var mutex: Control
    var current: Option<nat>
    var futures: seq<Future>
    var futsignal: bool
    var signalClosed: bool
    var pairs: seq<Pair>
    var resolved: seq<Resolution>
    var subs: seq<Sub>
    ghost var home: seq<Place>

    ghost function View(): Conn
      reads this
    {
      Conn(state, mutex, current, futures, futsignal, signalClosed, pairs, subs, home, resolved)
    }

    ghost predicate Valid()
      reads this
    {
      Inv(View())
    }

    constructor ()
      ensures Valid() && View() == Init()
    {
      state, mutex, current := Disconnected, Idle, None;
      futures, futsignal, signalClosed := [], false, false;
      pairs, resolved, subs, home := [], [], [], [];
    }

    /** The futures of one call: the header commands, the requests, EXEC. */
    method Line(batch: nat, n: nat, asking: bool, tx: bool) returns (added: seq<Future>)
      ensures added == Futures(batch, Sub(n, asking, tx, tx)) && LaidOut(added, batch, n, asking, tx)
    {
      ghost var all := Futures(batch, Sub(n, asking, tx, tx));
      added := [];
      if asking {
        added := added + [Future(batch, |added|, Asking)];
      }
      if tx {
        added := added + [Future(batch, |added|, Multi)];
      }
      var head := |added|;
      assert added == all[..head];
      for i := 0 to n
        invariant |added| == head + i && added == all[..head + i]
      {
        assert all[head + i] == Future(batch, |added|, Req(i));
        added := added + [Future(batch, |added|, Req(i))];
      }
      if tx {
        added := added + [Future(batch, |added|, Exec(n))];
      }
      FuturesLaidOut(batch, n, asking, tx);
      assert added == all;
    }

    /** Appends the futures of one call under `futmtx`. */
    method Enqueue(n: nat, asking: bool, tx: bool)
      requires n > 0 && !state.Closed? && !state.Disconnected?
      modifies this
      ensures View() == old(View()).(
                          subs := old(subs) + [Sub(n, asking, tx, tx)],
                          home := old(home) + [Queued],
                          token := old(futsignal) || old(futures) == [],
                          queue := old(futures) + Futures(|old(subs)|, Sub(n, asking, tx, tx)))
      ensures old(futures) <= futures && LaidOut(futures[|old(futures)|..], |old(subs)|, n, asking, tx)
    {
      var added := Line(|subs|, n, asking, tx);
      if futures == [] {
        futsignal := true;
      }
      assert (futures + added)[|futures|..] == added;
      futures := futures + added;
      subs := subs + [Sub(n, asking, tx, tx)];
      home := home + [Queued];
    }

    /** Resolves every callback of a refused call, EXEC last. */
    method Refuse(n: nat, tx: bool, refusal: Option<Kind>, check: Check)
      modifies this
      ensures var sub := Sub(n, false, false, tx);
        View() == old(View()).(
                    subs := old(subs) + [sub], home := old(home) + [Rejected],
                    log := old(resolved) + ResolveAll(Futures(|old(subs)|, sub), f => RefusalResult(f, refusal, check)))
    {
      var batch := |subs|;
      ghost var due := ResolveAll(Futures(batch, Sub(n, false, false, tx)), f => RefusalResult(f, refusal, check));
      var before := resolved;
      for i := 0 to n
        modifies this`resolved
        invariant resolved == before + due[..i]
      {
        var fut := Future(batch, i, Req(i));
        resolved := resolved + [Resolution(fut, RefusalResult(fut, refusal, check))];
      }
      if tx {
        var fut := Future(batch, n, Exec(n));
        resolved := resolved + [Resolution(fut, RefusalResult(fut, refusal, check))];
      }
      assert resolved == before + due;
      subs := subs + [Sub(n, false, false, tx)];
      home := home + [Rejected];
    }

    /** SendAsk and SendBatchFlags: accept the whole batch or refuse the whole batch. */
    method SendBatchFlags(n: nat, asking: bool, tx: bool, check: Check)
      requires Valid() && (check.Malformed? ==> check.pos < n)
      modifies this
      ensures Valid() && View() == Next(old(View()), Submit(n, asking, tx, check))
      ensures Submitted(old(View()), View(), n, asking, tx, check)
    {
      SubmitKeepsInv(View(), n, asking, tx, check);
      ghost var next := Next(View(), Submit(n, asking, tx, check));
      if check.Malformed? {
        Refuse(n, tx, Some(BatchFormat), check);
      } else if check.Cancelled? {
        Refuse(n, tx, Some(RequestCancelled), check);
      } else if n == 0 {
        Refuse(n, tx, None, check);
      } else if state.Closed? {
        Refuse(n, tx, Some(ContextClosed), check);
      } else if state.Disconnected? {
        Refuse(n, tx, Some(NotConnected), check);
      } else {
        Enqueue(n, asking, tx);
      }
      assert View() == next;
      SubmitEffect(old(View()), n, asking, tx, check);
    }

    /** The writer swaps the queue for its empty buffer. */
    method TakeQueue(k: nat)
      requires Valid() && Enabled(View(), Step.Take(k))
      modifies this
      ensures Valid() && View() == Next(old(View()), Step.Take(k))
    {
      TakeKeepsInv(View(), k);
      ghost var next := Next(View(), Step.Take(k));
      var p := pairs[k];
      var fetched := futures;
      if |fetched| == 0 {
        pairs := pairs[k := p.(writer := Waiting)];
      } else {
        futures := [];
        pairs := pairs[k := p.(writer := Holding, batch := fetched)];
        home := MoveQueued(home, OnPair(k));
      }
      assert View() == next;
    }

    /** The writer passes its whole batch to Write; on failure it breaks the pair and leaves. */
    method WriteBatch(k: nat, ok: bool)
      requires Valid() && Enabled(View(), Step.Write(k, ok))
      modifies this
      ensures Valid() && View() == Next(old(View()), Step.Write(k, ok))
    {
      WriterKeepsInv(View(), Step.Write(k, ok));
      ghost var next := Next(View(), Step.Write(k, ok));
      var p := pairs[k];
      p := p.(written := p.written + p.batch);
      if ok {
        p := p.(writer := Wrote);
      } else {
        if p.failure.None? {
          p := p.(failure := Some(IO));
        }
        p := p.(writer := Leaving);
      }
      pairs := pairs[k := p];
      assert View() == next;
    }

    /** The writer's exit: send the last futures to the reader and close the channel. */
    method CloseWriter(k: nat)
      requires Valid() && Enabled(View(), Step.Leave(k))
      modifies this
      ensures Valid() && View() == Next(old(View()), Step.Leave(k))
    {
      WriterKeepsInv(View(), Step.Leave(k));
      ghost var next := Next(View(), Step.Leave(k));
      var p := pairs[k];
      if |p.batch| != 0 {
        p := p.(chan := p.chan + [p.batch]);
      }
      pairs := pairs[k := p.(batch := [], writer := Gone)];
      assert View() == next;
    }

    /** The reader got something from the socket: an answer for the next future, or its end. */
    method ReadReply(k: nat, res: Result)
      requires Valid() && Enabled(View(), Step.Read(k, res))
      modifies this
      ensures Valid() && View() == Next(old(View()), Step.Read(k, res))
    {
      ReadKeepsInv(View(), k, res);
      ghost var next := Next(View(), Step.Read(k, res));
      var p := pairs[k];
      if !IsAnswer(res) {
        if p.failure.None? {
          p := p.(failure := Some(res.kind));
        }
        p := p.(reader := Draining);
      } else if |p.rest| == 0 {
        p := p.(reader := HasReply(res), read := p.read + [res]);
      } else {
        var fut := p.rest[0];
        p := p.(rest := p.rest[1..], done := p.done + [fut], read := p.read + [res]);
        resolved := resolved + [Resolution(fut, res)];
      }
      pairs := pairs[k := p];
      assert View() == next;
    }

    /** The reader's batch is used up: receive the next one and resolve its first future. */
    method FetchBatch(k: nat)
      requires Valid() && Enabled(View(), Step.Fetch(k))
      modifies this
      ensures Valid() && View() == Next(old(View()), Step.Fetch(k))
    {
      FetchKeepsInv(View(), k);
      ghost var next := Next(View(), Step.Fetch(k));
      assert Shape(pairs[k]);
      var p := pairs[k];
      if |p.chan| == 0 {
        p := p.(reader := Draining);
      } else {
        var batch := p.chan[0];
        var res := p.reader.res;
        p := p.(chan := p.chan[1..], rest := batch[1..], done := p.done + [batch[0]],
                reader := Reading);
        resolved := resolved + [Resolution(batch[0], res)];
      }
      pairs := pairs[k := p];
      assert View() == next;
    }

    /** One turn of the reader's final loops. */
    method DrainNext(k: nat)
      requires Valid() && Enabled(View(), Step.Drain(k))
      modifies this
      ensures Valid() && View() == Next(old(View()), Step.Drain(k))
    {
      DrainKeepsInv(View(), k);
      ghost var next := Next(View(), Step.Drain(k));
      var p := pairs[k];
      if |p.rest| != 0 {
        var fut := p.rest[0];
        resolved := resolved + [Resolution(fut, PairError(p))];
        p := p.(rest := p.rest[1..], done := p.done + [fut]);
      } else if |p.chan| != 0 {
        p := p.(rest := p.chan[0], chan := p.chan[1..]);
      } else {
        p := p.(reader := Finished);
      }
      pairs := pairs[k := p];
      assert View() == next;
    }

    /** closeConnection up to the lock: publish the new state before the queue is touched. */
    method CloseConnection(k: nat, forever: bool)
      requires Valid()
      requires Enabled(View(), if forever then Shutdown else Lost(k))
      modifies this
      ensures Valid() && View() == Next(old(View()), if forever then Shutdown else Lost(k))
    {
      StepKeepsInv(View(), if forever then Shutdown else Lost(k));
      ghost var next := Next(View(), if forever then Shutdown else Lost(k));
      if forever {
        state := Closed;
        mutex := Dropping(ContextClosed);
      } else {
        state := Disconnected;
        mutex := Dropping(pairs[k].failure.value);
      }
      current := None;
      assert View() == next;
    }

    /** dropFutures under `futmtx`: clear the wake token and resolve the whole queue. */
    method DropFutures()
      requires Valid() && mutex.Dropping?
      modifies this
      ensures Valid() && View() == Next(old(View()), Drop)
    {
      DropKeepsInv(View());
      ghost var next := Next(View(), Drop);
      signalClosed := signalClosed || state.Closed?;
      futsignal := false;
      ResolveQueue(mutex.err);
      futures := [];
      mutex := Idle;
      home := MoveQueued(home, Dropped);
      assert View() == next;
    }

    method ResolveQueue(err: Kind)
      modifies this`resolved
      ensures resolved == old(resolved) + ErrorAll(futures, err)
    {
      var before := resolved;
      ghost var due := ErrorAll(futures, err);
      for i := 0 to |futures|
        invariant resolved == before + due[..i]
      {
        resolved := resolved + [Resolution(futures[i], Error(err))];
      }
      assert resolved == before + due;
    }

    /** createConnection: accept requests, then dial. */
    method BeginDial()
      requires Valid() && Enabled(View(), StartDial)
      modifies this`state, this`mutex
      ensures Valid() && View() == Next(old(View()), StartDial)
    {
      StepKeepsInv(View(), StartDial);
      state := Connecting;
      mutex := Dialing;
    }

    /** dial succeeded: install the socket and start its pair. */
    method InstallSocket()
      requires Valid() && Enabled(View(), DialOk)
      modifies this`current, this`pairs, this`mutex
      ensures Valid() && View() == Next(old(View()), DialOk)
    {
      DialOkKeepsInv(View());
      ghost var next := Next(View(), DialOk);
      current := Some(|pairs|);
      pairs := pairs + [NewPair()];
      mutex := Dialed;
      assert View() == next;
    }

    /** createConnection after dial: publish the outcome; a failure is followed by DropFutures. */
    method PublishDial(ok: bool)
      requires Valid() && Enabled(View(), if ok then Publish else DialFail)
      modifies this`state, this`mutex
      ensures Valid() && View() == Next(old(View()), if ok then Publish else DialFail)
    {
      StepKeepsInv(View(), if ok then Publish else DialFail);
      if ok {
        state := Connected;
        mutex := Idle;
      } else {
        state := Disconnected;
        mutex := Dropping(DialFailed);
      }
    }
  }
}
