/**
 * The sink that buffers processed bloops and persists them in batches. Whether the repository
 * accepts a batch is part of each stimulus; a cancelled flush is outside the model.
 */
module BloopSink {
  import opened Bloops

  /** What the sink's loop reacts to, with the repository's answer should a flush be attempted. */
  datatype Stimulus = Tick(accepted: bool)
                    | BloopProcessed(bloop: Bloop, accepted: bool)
                    | OtherEvent
                    | Lagged(accepted: bool)
                    | Closed

  datatype Sink = Sink(buffer: seq<Bloop>, persisted: seq<seq<Bloop>>, lastFailed: bool) {

    function Flush(accepted: bool): Sink {
      if buffer == [] then this
      else if accepted then Sink([], persisted + [buffer], false)
      else Sink(buffer, persisted, true)
    }

    function React(maxBatchSize: nat, x: Stimulus): Sink {
      match x
      case Tick(accepted) => Flush(accepted)
      case BloopProcessed(bloop, accepted) =>
        var grown := this.(buffer := buffer + [bloop]);
        if |grown.buffer| >= maxBatchSize then grown.Flush(accepted) else grown
      case OtherEvent => this
      case Lagged(accepted) => Flush(accepted)
      case Closed => this
    }
  }

  /** The loop runs until the event stream closes. */
  ghost function Run(s: Sink, maxBatchSize: nat, xs: seq<Stimulus>): Sink
    decreases |xs|
  {
    if xs == [] || xs[0].Closed? then s else Run(s.React(maxBatchSize, xs[0]), maxBatchSize, xs[1..])
  }

  /** The bloops delivered before the stream closes, in order. */
  ghost function Received(xs: seq<Stimulus>): seq<Bloop> {
    if xs == [] || xs[0].Closed? then []
    else (if xs[0].BloopProcessed? then [xs[0].bloop] else []) + Received(xs[1..])
  }

  ghost function Flatten(batches: seq<seq<Bloop>>): seq<Bloop> {
    if batches == [] then [] else Flatten(batches[..|batches| - 1]) + batches[|batches| - 1]
  }

  /** Everything the sink has taken in: persisted batches first, then the buffer. */
  ghost function Content(s: Sink): seq<Bloop> { Flatten(s.persisted) + s.buffer }

  lemma FlushKeepsContent(s: Sink, accepted: bool)
    ensures Content(s.Flush(accepted)) == Content(s)
  {
  }

  lemma ReactContent(s: Sink, maxBatchSize: nat, x: Stimulus)
    ensures Content(s.React(maxBatchSize, x)) == Content(s) + if x.BloopProcessed? then [x.bloop] else []
  {
    match x
    case Tick(accepted) => FlushKeepsContent(s, accepted);
    case Lagged(accepted) => FlushKeepsContent(s, accepted);
    case BloopProcessed(bloop, accepted) => FlushKeepsContent(s.(buffer := s.buffer + [bloop]), accepted);
    case _ =>
  }

  /** In every run, under any pattern of failures, nothing is lost, repeated or reordered. */
  lemma {:induction false} NothingLost(s: Sink, maxBatchSize: nat, xs: seq<Stimulus>)
    ensures Content(Run(s, maxBatchSize, xs)) == Content(s) + Received(xs)
    decreases |xs|
  {
    if xs != [] && !xs[0].Closed? {
      ReactContent(s, maxBatchSize, xs[0]);
      NothingLost(s.React(maxBatchSize, xs[0]), maxBatchSize, xs[1..]);
    }
  }

  /** A full buffer means that the latest attempt to persist it failed. */
  ghost predicate FullOnlyAfterFailure(s: Sink, maxBatchSize: nat) {
    |s.buffer| >= maxBatchSize ==> s.lastFailed
  }

  lemma {:induction false} FullOnlyAfterFailureInEveryRun(s: Sink, maxBatchSize: nat, xs: seq<Stimulus>)
    requires maxBatchSize >= 1 && FullOnlyAfterFailure(s, maxBatchSize)
    ensures FullOnlyAfterFailure(Run(s, maxBatchSize, xs), maxBatchSize)
    decreases |xs|
  {
    if xs != [] && !xs[0].Closed? {
      FullOnlyAfterFailureInEveryRun(s.React(maxBatchSize, xs[0]), maxBatchSize, xs[1..]);
    }
  }

  /** The stimulus makes the sink try to persist what it has, and the repository takes it. */
  predicate Persists(s: Sink, maxBatchSize: nat, x: Stimulus) {
    match x
    case Tick(accepted) => accepted
    case Lagged(accepted) => accepted
    case BloopProcessed(_, accepted) => accepted && |s.buffer| + 1 >= maxBatchSize
    case _ => false
  }

  lemma {:induction false} RunSnoc(s: Sink, maxBatchSize: nat, xs: seq<Stimulus>, x: Stimulus)
    requires forall y <- xs :: !y.Closed?
    ensures Run(s, maxBatchSize, xs + [x]) == if x.Closed? then Run(s, maxBatchSize, xs) else Run(s, maxBatchSize, xs).React(maxBatchSize, x)
    decreases |xs|
  {
    if xs == [] {
      assert (xs + [x])[1..] == [];
    } else {
      assert (xs + [x])[1..] == xs[1..] + [x];
      RunSnoc(s.React(maxBatchSize, xs[0]), maxBatchSize, xs[1..], x);
    }
  }

  /**
   * In every run, a tick, a lag notice or a bloop that fills the batch, when the repository accepts,
   * leaves everything received so far persisted and nothing waiting.
   */
  lemma PersistsAllSoFar(maxBatchSize: nat, xs: seq<Stimulus>, x: Stimulus)
    requires (forall y <- xs :: !y.Closed?) && Persists(Run(Sink([], [], false), maxBatchSize, xs), maxBatchSize, x)
    ensures var s := Run(Sink([], [], false), maxBatchSize, xs + [x]); s.buffer == [] && Flatten(s.persisted) == Received(xs + [x])
  {
    var start := Sink([], [], false);
    RunSnoc(start, maxBatchSize, xs, x);
    NothingLost(start, maxBatchSize, xs + [x]);
    assert Content(start) == [];
    assert Content(Run(start, maxBatchSize, xs + [x])) == Flatten(Run(start, maxBatchSize, xs + [x]).persisted);
  }

  /** If the final flush succeeds, exactly the received bloops have been persisted. */
  lemma FinalFlushPersistsAll(maxBatchSize: nat, xs: seq<Stimulus>)
    ensures Flatten(Run(Sink([], [], false), maxBatchSize, xs).Flush(true).persisted) == Received(xs)
  {
    var s := Run(Sink([], [], false), maxBatchSize, xs);
    NothingLost(Sink([], [], false), maxBatchSize, xs);
    FlushKeepsContent(s, true);
    assert Content(Sink([], [], false)) == [];
    assert Content(s.Flush(true)) == Flatten(s.Flush(true).persisted);
  }

  class ProcessedBloopSink {
    var buffer: seq<Bloop>
    const maxBatchSize: nat
    ghost var persisted: seq<seq<Bloop>>
    ghost var lastFailed: bool

    ghost function View(): Sink
      reads this
    {
      Sink(buffer, persisted, lastFailed)
    }

    constructor (maxBatchSize: nat)
      ensures View() == Sink([], [], false) && this.maxBatchSize == maxBatchSize
    {
      buffer, persisted, lastFailed := [], [], false;
      this.maxBatchSize := maxBatchSize;
    }

    /** Takes the buffer, tries to persist it, and puts it back on failure. */
    method Flush(accepted: bool)
      modifies this
      ensures View() == old(View()).Flush(accepted)
    {
      if buffer == [] {
        return;
      }
      var batch := buffer;
      buffer := [];
      if !accepted {
        buffer := buffer + batch;
        lastFailed := true;
      } else {
        persisted, lastFailed := persisted + [batch], false;
      }
    }

    method HandleRecv(x: Stimulus) returns (proceed: bool)
      requires !x.Tick?
      modifies this
      ensures View() == old(View()).React(maxBatchSize, x) && proceed == !x.Closed?
    {
      match x {
        case BloopProcessed(bloop, accepted) =>
          buffer := buffer + [bloop];
          if |buffer| >= maxBatchSize {
            Flush(accepted);
          }
          proceed := true;
        case OtherEvent =>
          proceed := true;
        case Lagged(accepted) =>
          Flush(accepted);
          proceed := true;
        case Closed =>
          proceed := false;
      }
    }

    method ProcessEvents(xs: seq<Stimulus>)
      modifies this
      ensures View() == Run(old(View()), maxBatchSize, xs)
    {
      for i := 0 to |xs|
        invariant Run(View(), maxBatchSize, xs[i..]) == Run(old(View()), maxBatchSize, xs)
      {
        assert xs[i..][1..] == xs[i + 1..];
        var proceed := true;
        if xs[i].Tick? {
          Flush(xs[i].accepted);
        } else {
          proceed := HandleRecv(xs[i]);
        }
        if !proceed {
          return;
        }
      }
    }
  }
}
