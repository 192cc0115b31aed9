/** The worker's receive loop as a program, and why it is the worker of the protocol. */
module WorkerLoop {
  import opened Transfer
  import opened UpdateOutcome
  import opened UpdateProtocol

  /** The worker alone: one request is heard, served and answered, the buffer holding `view`. */
  function Serve(p: Pair, m: Message, ok: bool, view: seq<Byte>): Pair
  {
    var heard := WorkerMove(p.(chan := Request(m), buffer := view), ok);
    if heard.None? then p
    else
      var busy := heard.value;
      if !WorkerReplies(busy.worker) then busy
      else
        var done := WorkerMove(busy, ok).value;
        done.(chan := Empty, got := done.got + [done.chan.ok])
  }

  const IDLE := Pair(Connect, Empty, [], [], AwaitHandle, [], [], [])

  /** The worker after the first `n` requests. */
  function Served(inbox: seq<Message>, oks: seq<bool>, views: seq<seq<Byte>>, n: nat): Pair
    requires |inbox| == |oks| == |views| && n <= |inbox|
  {
    if n == 0 then IDLE
    else Serve(Served(inbox, oks, views, n - 1), inbox[n - 1], oks[n - 1], views[n - 1])
  }

  predicate Ended(pc: WorkerPc)
  {
    pc.Stopped? || pc.Crashed?
  }

  lemma {:induction false} NoMoreService(inbox: seq<Message>, oks: seq<bool>, views: seq<seq<Byte>>, k: nat, n: nat)
    requires |inbox| == |oks| == |views| && k <= n <= |inbox| && Ended(Served(inbox, oks, views, k).worker)
    ensures Served(inbox, oks, views, n) == Served(inbox, oks, views, k)
  {
    if k < n {
      NoMoreService(inbox, oks, views, k, n - 1);
    }
  }

  /** The worker has stopped or waits at `end`, having answered `replies` to `inbox[..taken]`. */
  ghost predicate Observed(p: Pair, inbox: seq<Message>, end: WorkerPc, taken: nat, replies: seq<bool>,
                           seen: seq<seq<Byte>>)
  {
    taken <= |inbox| && p.worker == end && p.heard == inbox[..taken] && p.got == replies && p.seen == seen
  }

  lemma {:induction false} ServeHandle(inbox: seq<Message>, oks: seq<bool>, views: seq<seq<Byte>>)
    requires |inbox| == |oks| == |views| > 0
    ensures Observed(Served(inbox, oks, views, 1), inbox, if oks[0] then AwaitPayload else AttachFailed, 1, [oks[0]], [])
  {
    assert Served(inbox, oks, views, 1) == Serve(IDLE, inbox[0], oks[0], views[0]);
    assert inbox[..1] == [inbox[0]];
  }

  /** One iteration: what the protocol's worker does with request `k`. */
  lemma {:induction false} ServeNext(inbox: seq<Message>, oks: seq<bool>, views: seq<seq<Byte>>, k: nat, end: WorkerPc,
                                     replies: seq<bool>, seen: seq<seq<Byte>>)
    requires |inbox| == |oks| == |views| && k < |inbox| && WorkerWaits(end) && end != AwaitHandle
    requires Observed(Served(inbox, oks, views, k), inbox, end, k, replies, seen)
    ensures var m, after := inbox[k], Served(inbox, oks, views, k + 1);
            if end == AwaitPayload && m.Weights?
            then Observed(after, inbox, AwaitPayload, k + 1, replies + [oks[k]], seen + [views[k]])
            else if end == AwaitPayload && m == Nothing then Observed(after, inbox, AwaitLast, k + 1, replies + [true], seen)
            else if end == AwaitLast && m == Nothing then Observed(after, inbox, Stopped, k + 1, replies + [true], seen)
            else Observed(after, inbox, Crashed, k + 1, replies, seen)
  {
    hide Served;
    ServedNext(inbox, oks, views, k);
    assert inbox[..k + 1] == inbox[..k] + [inbox[k]];
  }

  lemma {:induction false} ServedNext(inbox: seq<Message>, oks: seq<bool>, views: seq<seq<Byte>>, k: nat)
    requires |inbox| == |oks| == |views| && k < |inbox|
    ensures Served(inbox, oks, views, k + 1) == Serve(Served(inbox, oks, views, k), inbox[k], oks[k], views[k])
  {
  }

  /**
   `update_weights_from_ipc` on the requests `inbox`: `oks[k]` is whether attaching or `run`
   succeeds on request `k`, `views[k]` is the buffer at that time. Every reply, every buffer passed
   to `run` and the way it ends are those of the protocol's worker.
   */
  method UpdateWeightsFromIpc(inbox: seq<Message>, oks: seq<bool>, views: seq<seq<Byte>>)
    returns (end: WorkerPc, taken: nat, replies: seq<bool>, seen: seq<seq<Byte>>)
    requires |inbox| == |oks| == |views|
    ensures Observed(Served(inbox, oks, views, |inbox|), inbox, end, taken, replies, seen)
  {
    hide Observed, Served;
    replies, seen, taken := [], [], 0;
    if |inbox| == 0 {
      NothingServed(inbox);
      return AwaitHandle, 0, [], [];
    }
    ServeHandle(inbox, oks, views);
    replies, taken := [oks[0]], 1;
    if !oks[0] {
      if |inbox| == 1 {
        return AttachFailed, taken, replies, seen;
      }
      ServeNext(inbox, oks, views, 1, AttachFailed, replies, seen);
      ObservedEnd(inbox, oks, views, 2, Crashed, replies, seen);
      return Crashed, 2, replies, seen;
    }
    var released := false;
    while taken < |inbox|
      invariant 1 <= taken <= |inbox|
      invariant Observed(Served(inbox, oks, views, taken), inbox, if released then AwaitLast else AwaitPayload,
                         taken, replies, seen)
    {
      var payload := inbox[taken];
      ServeNext(inbox, oks, views, taken, if released then AwaitLast else AwaitPayload, replies, seen);
      taken := taken + 1;
      if released {
        if payload != Nothing {
          ObservedEnd(inbox, oks, views, taken, Crashed, replies, seen);
          return Crashed, taken, replies, seen;
        }
        replies := replies + [true];
        ObservedEnd(inbox, oks, views, taken, Stopped, replies, seen);
        return Stopped, taken, replies, seen;
      }
      if payload == Nothing {
        released := true;
        replies := replies + [true];
      } else if payload.Weights? {
        seen := seen + [views[taken - 1]];
        replies := replies + [oks[taken - 1]];
      } else {
        ObservedEnd(inbox, oks, views, taken, Crashed, replies, seen);
        return Crashed, taken, replies, seen;
      }
    }
    end := if released then AwaitLast else AwaitPayload;
  }

  lemma {:induction false} NothingServed(inbox: seq<Message>)
    requires inbox == []
    ensures Observed(Served(inbox, [], [], 0), inbox, AwaitHandle, 0, [], [])
  {
  }

  lemma {:induction false} ObservedEnd(inbox: seq<Message>, oks: seq<bool>, views: seq<seq<Byte>>, k: nat,
                                       end: WorkerPc,
                                       replies: seq<bool>, seen: seq<seq<Byte>>)
    requires |inbox| == |oks| == |views| && k <= |inbox| && Ended(end)
    requires Observed(Served(inbox, oks, views, k), inbox, end, k, replies, seen)
    ensures Observed(Served(inbox, oks, views, |inbox|), inbox, end, k, replies, seen)
  {
    NoMoreService(inbox, oks, views, k, |inbox|);
  }
}
