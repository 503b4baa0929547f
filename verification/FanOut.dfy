/**
  The fan-out to several publishers: one queue for each, filled by the source and emptied by one worker
  each, in any interleaving of the steps.
 */
module FanOut {
  import opened Bytes

  /** Where a worker is: opening its sink, between two samples, holding one, waiting, or stopped. */
  datatype Phase<S> = Opening | Idle | Writing(sample: S) | Waiting | Stopped | FailedToOpen

  datatype Step<S> =
    | OnSample(sample: S)
    | Open(id: nat, good: bool)
    | Take(id: nat)
    | Write(id: nat)
    | Wake(id: nat)
    | Stop(id: nat)

  /** One publisher by itself. */
  datatype One<S> = One(queue: seq<S>, phase: Phase<S>, written: seq<S>)

  /** What a step does to publisher `i`: samples and its own worker's steps, nothing else. */
  function Next<S>(one: One<S>, i: nat, step: Step<S>): One<S> {
    match step
    case OnSample(s) => One(one.queue + [s], if one.phase.Waiting? then Idle else one.phase, one.written)
    case Open(id, good) =>
      if id == i && one.phase.Opening? then one.(phase := if good then Idle else FailedToOpen) else one
    case Take(id) =>
      if id != i || !one.phase.Idle? then one
      else if one.queue == [] then one.(phase := Waiting)
      else One(one.queue[1..], Writing(one.queue[0]), one.written)
    case Write(id) =>
      if id == i && one.phase.Writing? then One(one.queue, Idle, one.written + [one.phase.sample]) else one
    case Wake(id) => if id == i && one.phase.Waiting? then one.(phase := Idle) else one
    case Stop(id) => if id == i && one.phase.Idle? then one.(phase := Stopped) else one
  }

  /** A publisher on its own, whatever happens to the others. */
  function Alone<S>(i: nat, steps: seq<Step<S>>): One<S> {
    if steps == [] then One([], Opening, []) else Next(Alone(i, steps[..|steps| - 1]), i, steps[|steps| - 1])
  }

  /** All publishers; `written` is what each sink got. */
  class Publishers<S(==)> {
    var queues: seq<seq<S>>
    var phases: seq<Phase<S>>
    var written: seq<seq<S>>
    ghost var log: seq<S>

    /** `onTrack`: a queue and a worker for every publisher. */
    constructor (n: nat)
      ensures Valid() && log == [] && |queues| == n
      ensures forall i :: 0 <= i < n ==> written[i] == [] && phases[i] == Opening
    {
      queues := seq(n, i => []);
      phases := seq(n, i => Opening);
      written := seq(n, i => []);
      log := [];
    }

    /** A sample taken from the queue and not yet written. */
    ghost function InFlight(i: nat): seq<S>
      reads this
      requires i < |phases|
    {
      if phases[i].Writing? then [phases[i].sample] else []
    }

    ghost function At(i: nat): One<S>
      reads this
      requires i < |queues| && |queues| == |phases| == |written|
    {
      One(queues[i], phases[i], written[i])
    }

    /** For every publisher, what is written, in flight and queued is everything that came, in order. */
    ghost predicate Valid()
      reads this
    {
      && |queues| == |phases| == |written|
      && forall i :: 0 <= i < |queues| ==> written[i] + InFlight(i) + queues[i] == log
    }

    /** What a step of one worker leaves as it was. */
    twostate predicate OthersUnchanged(id: nat)
      requires old(|queues| == |phases| == |written|)
      reads this
    {
      && |queues| == old(|queues|) && |phases| == old(|phases|) && |written| == old(|written|) && log == old(log)
      && forall i :: 0 <= i < |queues| && i != id ==>
           i < |phases| && i < |written| &&
           queues[i] == old(queues)[i] && phases[i] == old(phases)[i] && written[i] == old(written)[i]
    }

    /** `onSample`: under the mutex, the sample goes behind every queue; then all workers are notified. */
    method OnSample(s: S)
      requires Valid()
      modifies this
      ensures Valid() && log == old(log) + [s] && written == old(written) && |queues| == old(|queues|)
      ensures forall i :: 0 <= i < |queues| ==> queues[i] == old(queues[i]) + [s]
      ensures |phases| == old(|phases|)
      ensures forall i :: 0 <= i < |phases| ==> phases[i] == if old(phases[i]).Waiting? then Idle else old(phases[i])
    {
      for i := 0 to |queues|
        invariant |queues| == |phases| == |written| && |queues| == old(|queues|)
        invariant phases == old(phases) && written == old(written) && log == old(log)
        invariant forall j :: 0 <= j < i ==> queues[j] == old(queues[j]) + [s]
        invariant forall j :: i <= j < |queues| ==> queues[j] == old(queues[j])
      {
        queues := queues[i := queues[i] + [s]];
      }
      phases := seq(|phases|, i requires 0 <= i < |phases| reads this =>
        if phases[i].Waiting? then Idle else phases[i]);
      log := log + [s];
      forall i | 0 <= i < |queues|
        ensures written[i] + InFlight(i) + queues[i] == log
      {
        assert InFlight(i) == old(InFlight(i));
        assert written[i] + InFlight(i) + (old(queues[i]) + [s]) == (written[i] + InFlight(i) + old(queues[i])) + [s];
      }
    }

    /** Creating the sink succeeds or fails; without a sink the worker ends and its queue only grows. */
    method Open(id: nat, good: bool)
      requires Valid() && id < |phases| && phases[id].Opening?
      modifies this`phases
      ensures Valid() && OthersUnchanged(id) && written == old(written) && queues == old(queues)
      ensures phases[id] == if good then Idle else FailedToOpen
    {
      phases := phases[id := if good then Idle else FailedToOpen];
    }

    /** Under the mutex: takes the first sample of its queue, or goes to wait. */
    method Take(id: nat)
      requires Valid() && id < |phases| && phases[id].Idle?
      modifies this`phases, this`queues
      ensures Valid() && OthersUnchanged(id) && written == old(written)
      ensures old(queues[id]) == [] ==> phases[id] == Waiting && queues[id] == []
      ensures old(queues[id]) != [] ==> phases[id] == Writing(old(queues[id])[0]) && queues[id] == old(queues[id])[1..]
    {
      if |queues[id]| > 0 {
        phases := phases[id := Writing(queues[id][0])];
        queues := queues[id := queues[id][1..]];
      } else {
        phases := phases[id := Waiting];
      }
    }

    /** Outside the mutex: hands the sample to the sink. */
    method Write(id: nat)
      requires Valid() && id < |phases| && phases[id].Writing?
      modifies this`phases, this`written
      ensures Valid() && OthersUnchanged(id) && queues == old(queues)
      ensures written[id] == old(written[id]) + [old(phases[id]).sample] && phases[id] == Idle
    {
      var was := written[id] + InFlight(id);
      written := written[id := written[id] + [phases[id].sample]];
      phases := phases[id := Idle];
      assert written[id] + InFlight(id) == was;
    }

    /** Waking up, notified or not, only leads back to the check. */
    method Wake(id: nat)
      requires Valid() && id < |phases| && phases[id].Waiting?
      modifies this`phases
      ensures Valid() && OthersUnchanged(id) && written == old(written) && queues == old(queues)
      ensures phases[id] == Idle
    {
      phases := phases[id := Idle];
    }

    /** The stop flag is seen between two samples. */
    method Stop(id: nat)
      requires Valid() && id < |phases| && phases[id].Idle?
      modifies this`phases
      ensures Valid() && OthersUnchanged(id) && written == old(written) && queues == old(queues)
      ensures phases[id] == Stopped
    {
      phases := phases[id := Stopped];
    }

    /** Whether a step can be taken now. */
    predicate Enabled(step: Step<S>)
      reads this
    {
      match step
      case OnSample(_) => true
      case Open(id, _) => id < |phases| && phases[id].Opening?
      case Take(id) => id < |phases| && phases[id].Idle?
      case Write(id) => id < |phases| && phases[id].Writing?
      case Wake(id) => id < |phases| && phases[id].Waiting?
      case Stop(id) => id < |phases| && phases[id].Idle?
    }

    method Do(step: Step<S>)
      requires Valid() && Enabled(step)
      modifies this
      ensures Valid() && |queues| == old(|queues|)
      ensures log == old(log) + if step.OnSample? then [step.sample] else []
      ensures forall i :: 0 <= i < |queues| ==> At(i) == Next(old(At(i)), i, step)
    {
      match step {
        case OnSample(s) => OnSample(s);
        case Open(id, good) => Open(id, good);
        case Take(id) => Take(id);
        case Write(id) => Write(id);
        case Wake(id) => Wake(id);
        case Stop(id) => Stop(id);
      }
    }
  }

  /** The samples of a run, in the order they came. */
  function SampleLog<S>(steps: seq<Step<S>>): seq<S> {
    if steps == [] then []
    else
      var last := steps[|steps| - 1];
      SampleLog(steps[..|steps| - 1]) + if last.OnSample? then [last.sample] else []
  }

  /** Any interleaving: every sink has a prefix of the samples, and what it has does not depend on the other workers. */
  method Run<S(==)>(n: nat, steps: seq<Step<S>>) returns (written: seq<seq<S>>)
    ensures |written| == n
    ensures forall i :: 0 <= i < n ==> written[i] <= SampleLog(steps) && written[i] == Alone(i, steps).written
  {
    var publishers := new Publishers<S>(n);
    assert steps[..0] == [];
    for k := 0 to |steps|
      invariant publishers.Valid() && fresh(publishers) && |publishers.queues| == n
      invariant publishers.log == SampleLog(steps[..k])
      invariant forall i :: 0 <= i < n ==> publishers.At(i) == Alone(i, steps[..k])
    {
      assert steps[..k + 1][..k] == steps[..k];
      if publishers.Enabled(steps[k]) {
        publishers.Do(steps[k]);
      } else {
        assert forall i :: 0 <= i < n ==> Next(publishers.At(i), i, steps[k]) == publishers.At(i);
      }
    }
    assert steps[..|steps|] == steps;
    written := publishers.written;
    assert forall i :: 0 <= i < n ==> written[i] == publishers.At(i).written;
  }
}
