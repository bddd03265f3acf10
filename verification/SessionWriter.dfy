/**
  The write queue of a session as a state machine. Sends are posted, so pushes, write
  completions and the close arrive in any order; every handler runs to completion before
  the next one starts.
 */
module SessionWriter {
  import opened Prelude

  /** `queue` and `writing` are the session's own fields. The rest is what an observer knows:
      the writes handed to the socket and not yet completed, and the histories of frames
      accepted into the queue, started, and completed without error. */
  datatype Writer = Writer(
    active: bool,
    queue: seq<seq<byte>>,
    writing: bool,
    outstanding: seq<seq<byte>>,
    accepted: seq<seq<byte>>,
    started: seq<seq<byte>>,
    completed: seq<seq<byte>>)

  /** What moving the front of the queue out leaves in its place. */
  const MOVED_OUT: seq<byte> := []

  const IDLE := Writer(true, [], false, [], [], [], [])

  /** The front of the queue is moved into a new socket write; its slot stays. */
  function DoWrite(w: Writer): Writer {
    if !w.active || w.queue == [] then w.(writing := false)
    else
      w.(writing := true,
         queue := w.queue[0 := MOVED_OUT],
         outstanding := w.outstanding + [w.queue[0]],
         started := w.started + [w.queue[0]])
  }

  /** The posted half of a send. */
  function Push(w: Writer, data: seq<byte>): Writer {
    if !w.active then w
    else
      var pushed := w.(queue := w.queue + [data], accepted := w.accepted + [data]);
      if w.queue == [] && !w.writing then DoWrite(pushed) else pushed
  }

  function Close(w: Writer): Writer {
    if !w.active then w else w.(active := false, queue := [], writing := false)
  }

  function HandleWrite(w: Writer, failed: bool): Writer
    requires w.outstanding != []
  {
    var queue := if w.queue == [] then [] else w.queue[1..];
    var rest := w.(queue := queue, outstanding := w.outstanding[1..]);
    if failed then Close(rest.(writing := false))
    else
      var done := rest.(completed := w.completed + [w.outstanding[0]]);
      if queue == [] then done.(writing := false)
      else if w.active then DoWrite(done)
      else done.(writing := false)
  }

  datatype Step = Posted(data: seq<byte>) | WriteEnds(failed: bool) | Closed

  /** A write can only end if one is outstanding. */
  function Next(w: Writer, s: Step): Writer {
    match s
    case Posted(data) => Push(w, data)
    case WriteEnds(failed) => if w.outstanding == [] then w else HandleWrite(w, failed)
    case Closed => Close(w)
  }

  function Run(w: Writer, steps: seq<Step>): Writer {
    if steps == [] then w else Next(Run(w, steps[..|steps| - 1]), steps[|steps| - 1])
  }

  /** At most one write is ever outstanding. While active: writing, a write being outstanding
      and a non-empty queue whose front is the moved-out slot are the same thing, and every
      accepted frame is completed, in flight or queued behind the slot. */
  ghost predicate Inv(w: Writer) {
    && |w.outstanding| <= 1
    && w.completed + w.outstanding <= w.accepted
    && w.started <= w.accepted
    && (w.active ==>
          && (w.writing <==> w.outstanding != [])
          && (w.writing <==> w.queue != [])
          && (w.queue != [] ==> w.queue[0] == MOVED_OUT)
          && w.accepted == w.completed + w.outstanding + Waiting(w)
          && w.started == w.completed + w.outstanding)
    && (!w.active ==> w.queue == [] && !w.writing)
  }

  /** The frames queued behind the one being written. */
  function Waiting(w: Writer): seq<seq<byte>> {
    if w.queue == [] then [] else w.queue[1..]
  }

  lemma PushKeepsInv(w: Writer, data: seq<byte>)
    requires Inv(w)
    ensures Inv(Push(w, data))
  {
    if w.active {
      Assoc(w.completed + w.outstanding, Waiting(w), [data]);
      if w.queue == [] {
        assert w.completed + [] + [] + [data] == w.completed + [data] + [];
      } else {
        TailOfAppend(w.queue, [data]);
      }
    }
  }

  lemma HandleWriteKeepsInv(w: Writer, failed: bool)
    requires Inv(w) && w.outstanding != []
    ensures Inv(HandleWrite(w, failed))
  {
    assert w.outstanding == [w.outstanding[0]];
    assert w.completed + [] == w.completed <= w.completed + w.outstanding;
    if w.active && !failed {
      var waiting := Waiting(w);
      var c := w.completed + w.outstanding;
      assert c + waiting == if waiting == [] then c + [] + [] else c + [waiting[0]] + waiting[1..];
    }
  }

  lemma {:induction false} RunKeepsInv(w: Writer, steps: seq<Step>)
    requires Inv(w)
    ensures Inv(Run(w, steps))
    decreases steps
  {
    if steps != [] {
      var before := Run(w, steps[..|steps| - 1]);
      RunKeepsInv(w, steps[..|steps| - 1]);
      match steps[|steps| - 1]
      case Posted(data) => PushKeepsInv(before, data);
      case WriteEnds(failed) => if before.outstanding != [] { HandleWriteKeepsInv(before, failed); }
      case Closed =>
    }
  }

  /** Over all interleavings, closing during a write included. */
  lemma {:induction false} WriterSafety(steps: seq<Step>)
    ensures Inv(Run(IDLE, steps))
  {
    RunKeepsInv(IDLE, steps);
  }

  /** Once closed, a session stays closed, accepts nothing and starts nothing. */
  lemma {:induction false} NothingStartsAfterClose(w: Writer, steps: seq<Step>)
    requires Inv(w) && !w.active
    ensures var r := Run(w, steps);
            && !r.active
            && r.accepted == w.accepted
            && r.started == w.started
            && (r.outstanding == w.outstanding || r.outstanding == [])
    decreases steps
  {
    if steps != [] {
      NothingStartsAfterClose(w, steps[..|steps| - 1]);
      RunKeepsInv(w, steps[..|steps| - 1]);
    }
  }

  function Completions(n: nat): (steps: seq<Step>)
    ensures |steps| == n
  {
    seq(n, i => WriteEnds(false))
  }

  /** No wake-up is lost: with no further sends, as many completions as there are queue slots
      write out everything ever accepted. */
  lemma {:induction false} QueueDrains(w: Writer, n: nat)
    requires Inv(w) && w.active && n <= |w.queue|
    ensures var r := Run(w, Completions(n));
            && Inv(r) && r.active && r.accepted == w.accepted
            && |r.queue| == |w.queue| - n
            && (n == |w.queue| ==> r.completed == r.accepted && r.outstanding == [])
    decreases n
  {
    if n > 0 {
      QueueDrains(w, n - 1);
      assert Completions(n)[..n - 1] == Completions(n - 1);
      var before := Run(w, Completions(n - 1));
      HandleWriteKeepsInv(before, false);
    }
    var r := Run(w, Completions(n));
    assert r.completed + [] + [] == r.completed;
  }
}
