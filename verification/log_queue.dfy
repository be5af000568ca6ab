/** The queue of log lines: its list, and producers and the writing thread as interleaved steps. */
module LogQueue {
  import opened Common
  import opened ListRing

  /** adx_str_t; the empty string stands for no string. */
  type Line = string

  /** adx_queue.c: nodes that carry a line, on the intrusive list. */
  class Queue {
    const ring: Ring
    var lines: map<Link, Line>

    ghost predicate Valid()
      reads this, ring, ring.head, ring.nodes
    {
      ring.Valid() && forall i :: 0 <= i < |ring.nodes| ==> ring.nodes[i] in lines && lines[ring.nodes[i]] != ""
    }

    /** The lines in order. */
    ghost function Contents(): (s: seq<Line>)
      requires Valid()
      reads this, ring, ring.head, ring.nodes
      ensures |s| == |ring.nodes| && forall i :: 0 <= i < |s| ==> s[i] == lines[ring.nodes[i]]
    {
      seq(|ring.nodes|, i requires 0 <= i < |ring.nodes| && Valid() reads this, ring, ring.head, ring.nodes =>
            lines[ring.nodes[i]])
    }

    constructor ()
      ensures Valid() && Contents() == [] && fresh(ring) && fresh(ring.head)
    {
      ring := new Ring();
      lines := map[];
    }

    /** An empty line is not queued. */
    method Push(line: Line)
      requires Valid()
      modifies this, ring, ring.head, ring.nodes
      ensures Valid() && Contents() == Appended(old(Contents()), line)
      ensures Contents() == if |line| > 0 then old(Contents()) + [line] else old(Contents())
      ensures forall n :: n in ring.nodes ==> n in old(ring.nodes) || fresh(n)
    {
      if line == "" {
        return;
      }
      var node := new Link();
      ring.Add(node);
      lines := lines[node := line];
    }

    /** The oldest line, or the empty one. */
    method Pop() returns (line: Line)
      requires Valid()
      modifies this, ring, ring.head, ring.nodes
      ensures Valid() && line == First(old(Contents())) && Contents() == Rest(old(Contents()))
      ensures if |old(Contents())| == 0 then line == "" && Contents() == [] else [line] + Contents() == old(Contents())
      ensures forall n :: n in ring.nodes ==> n in old(ring.nodes)
    {
      var node := ring.Pop();
      if node == null {
        return "";
      }
      line := lines[node];
      lines := lines - {node};
    }
  }

  function Appended(q: seq<Line>, line: Line): seq<Line> {
    if line == "" then q else q + [line]
  }

  function First(q: seq<Line>): Line {
    if q == [] then "" else q[0]
  }

  function Rest(q: seq<Line>): seq<Line> {
    if q == [] then [] else q[1..]
  }

  // ---- threads ----

  /** adx_log_queue_write_vlist of one thread, between calls or before each of its steps. */
  datatype Producer = Idle | Wants(line: Line) | Locked(line: Line) | Pushed | Unlocked

  /** adx_log_queue_write_thread before each of its steps. */
  datatype Consumer = Asleep | Wanting | Holding | Popped(line: Line) | Writing(line: Line)

  datatype Owner = Free | Of(p: nat) | OfConsumer

  /** history lists the lines in the order of their pushes. */
  datatype State = State(queue: seq<Line>, sem: nat, lock: Owner, producers: map<nat, Producer>, consumer: Consumer,
                         history: seq<Line>, written: seq<Line>)

  datatype Action =
    | Call(p: nat, line: Line) | LockP(p: nat) | PushP(p: nat) | UnlockP(p: nat) | Post(p: nat)
    | Wake | LockC | PopC | UnlockC | Write

  function At(s: State, p: nat): Producer {
    if p in s.producers then s.producers[p] else Idle
  }

  predicate Enabled(s: State, a: Action) {
    match a
    case Call(p, _) => At(s, p).Idle?
    case LockP(p) => At(s, p).Wants? && s.lock.Free?
    case PushP(p) => At(s, p).Locked?
    case UnlockP(p) => At(s, p).Pushed?
    case Post(p) => At(s, p).Unlocked?
    case Wake => s.consumer.Asleep? && s.sem > 0
    case LockC => s.consumer.Wanting? && s.lock.Free?
    case PopC => s.consumer.Holding?
    case UnlockC => s.consumer.Popped?
    case Write => s.consumer.Writing?
  }

  function Set(s: State, p: nat, pc: Producer): State {
    s.(producers := s.producers[p := pc])
  }

  /** A call that formats to nothing does nothing. */
  function Apply(s: State, a: Action): State
    requires Enabled(s, a)
  {
    match a
    case Call(p, line) => if line == "" then s else Set(s, p, Wants(line))
    case LockP(p) => Set(s, p, Locked(At(s, p).line)).(lock := Of(p))
    case PushP(p) => Set(s, p, Pushed).(queue := Appended(s.queue, At(s, p).line),
                                        history := Appended(s.history, At(s, p).line))
    case UnlockP(p) => Set(s, p, Unlocked).(lock := Free)
    case Post(p) => Set(s, p, Idle).(sem := s.sem + 1)
    case Wake => s.(consumer := Wanting, sem := s.sem - 1)
    case LockC => s.(consumer := Holding, lock := OfConsumer)
    case PopC => s.(consumer := Popped(First(s.queue)), queue := Rest(s.queue))
    case UnlockC => s.(consumer := if s.consumer.line == "" then Asleep else Writing(s.consumer.line), lock := Free)
    case Write => s.(consumer := Wanting, written := s.written + [s.consumer.line])
  }

  predicate Possible(s: State, actions: seq<Action>)
    decreases |actions|
  {
    actions == [] || (Enabled(s, actions[0]) && Possible(Apply(s, actions[0]), actions[1..]))
  }

  function Run(s: State, actions: seq<Action>): State
    requires Possible(s, actions)
    decreases |actions|
  {
    if actions == [] then s else Run(Apply(s, actions[0]), actions[1..])
  }

  const START := State([], 0, Free, map[], Asleep, [], [])

  /** The line taken off the queue and not yet written. */
  function InFlight(s: State): seq<Line> {
    if (s.consumer.Popped? || s.consumer.Writing?) && s.consumer.line != "" then [s.consumer.line] else []
  }

  /** Between push and post. */
  predicate Owing(s: State, p: nat) {
    At(s, p).Pushed? || At(s, p).Unlocked?
  }

  /** The consumer will not look at the queue again before a post. */
  predicate Resting(s: State) {
    s.consumer.Asleep? || (s.consumer.Popped? && s.consumer.line == "")
  }

  ghost predicate Exclusive(s: State) {
    && (forall p :: At(s, p).Locked? || At(s, p).Pushed? ==> s.lock == Of(p))
    && (s.consumer.Holding? || s.consumer.Popped? ==> s.lock.OfConsumer?)
    && (s.lock.OfConsumer? ==> s.consumer.Holding? || s.consumer.Popped?)
    && (s.lock.Of? ==> At(s, s.lock.p).Locked? || At(s, s.lock.p).Pushed?)
  }

  /** The line a producer has not pushed yet. */
  function Carries(pc: Producer): Option<Line> {
    match pc
    case Wants(line) => Some(line)
    case Locked(line) => Some(line)
    case _ => None
  }

  ghost predicate NothingEmpty(s: State) {
    && "" !in s.queue
    && (forall p :: Carries(At(s, p)) != Some(""))
    && (s.consumer.Writing? ==> s.consumer.line != "")
  }

  ghost predicate Inv(s: State) {
    && Exclusive(s) && NothingEmpty(s)
    && s.written + InFlight(s) + s.queue == s.history
    && (Resting(s) && s.queue != [] ==> s.sem > 0 || exists p :: Owing(s, p))
  }

  lemma StepOrder(s: State, a: Action)
    requires Inv(s) && Enabled(s, a)
    ensures var t := Apply(s, a); t.written + InFlight(t) + t.queue == t.history && NothingEmpty(t)
  {
    if a.PopC? && s.queue != [] {
      assert s.queue == [s.queue[0]] + s.queue[1..];
    }
    var t := Apply(s, a);
    forall p ensures Carries(At(t, p)) != Some("") {
      assert Carries(At(s, p)) != Some("");
    }
  }

  lemma StepExclusive(s: State, a: Action)
    requires Exclusive(s) && Enabled(s, a)
    ensures Exclusive(Apply(s, a))
  {}

  lemma StepWakes(s: State, a: Action)
    requires Inv(s) && Enabled(s, a)
    ensures var t := Apply(s, a); Resting(t) && t.queue != [] ==> t.sem > 0 || exists p :: Owing(t, p)
  {
    var t := Apply(s, a);
    if Resting(t) && t.queue != [] {
      match a {
        case PushP(p) => assert Owing(t, p);
        case UnlockP(p) => assert Owing(t, p);
        case Call(q, _) => StillOwing(s, t, q);
        case LockP(q) => StillOwing(s, t, q);
        case UnlockC => StillOwing(s, t, 0);
        case _ =>
      }
    }
  }

  /** Steps of others leave a debt in place. */
  lemma StillOwing(s: State, t: State, q: nat)
    requires s.sem > 0 || exists p :: Owing(s, p)
    requires t.sem == s.sem && forall p :: At(t, p) == At(s, p) || (p == q && !Owing(s, p))
    ensures t.sem > 0 || exists p :: Owing(t, p)
  {
    if s.sem == 0 {
      var p :| Owing(s, p);
      assert Owing(t, p);
    }
  }

  /** Every step keeps the order of the lines and loses no wake-up. */
  lemma {:induction false} RunKeeps(s: State, actions: seq<Action>)
    requires Inv(s) && Possible(s, actions)
    ensures Inv(Run(s, actions))
    decreases |actions|
  {
    if actions != [] {
      StepOrder(s, actions[0]);
      StepExclusive(s, actions[0]);
      StepWakes(s, actions[0]);
      RunKeeps(Apply(s, actions[0]), actions[1..]);
    }
  }

  /** In every reachable state what was written, is in flight and is queued are together the lines pushed,
      in the order of the pushes; and when the consumer sleeps with nothing posted or about to be posted,
      everything pushed has been written. */
  lemma Reachable(actions: seq<Action>)
    requires Possible(START, actions)
    ensures var s := Run(START, actions);
            && s.written + InFlight(s) + s.queue == s.history
            && (s.consumer.Asleep? && s.sem == 0 && (forall p :: !Owing(s, p)) ==> s.written == s.history)
  {
    assert Inv(START);
    RunKeeps(START, actions);
  }

  // ---- the consumer alone empties the queue ----

  /** Its next step; it never has to wait for a lock nobody holds. */
  function Next(c: Consumer): Action {
    match c
    case Asleep => Wake
    case Wanting => LockC
    case Holding => PopC
    case Popped(_) => UnlockC
    case Writing(_) => Write
  }

  function Rank(c: Consumer): nat {
    match c
    case Asleep => 0
    case Wanting => 4
    case Holding => 3
    case Popped(line) => if line == "" then 1 else 6
    case Writing(_) => 5
  }

  /** With no producer at work the consumer, step by step, writes all that was pushed and goes to sleep. */
  lemma {:induction false} Drains(s: State) returns (actions: seq<Action>)
    requires Inv(s) && forall p :: At(s, p).Idle?
    ensures Possible(s, actions)
    ensures var t := Run(s, actions); t.consumer.Asleep? && t.sem == 0 && t.queue == [] && t.written == t.history == s.history
    decreases s.sem, |s.queue|, Rank(s.consumer)
  {
    if s.consumer.Asleep? && s.sem == 0 {
      actions := [];
    } else {
      var a := Next(s.consumer);
      var t := Apply(s, a);
      StepOrder(s, a);
      StepExclusive(s, a);
      StepWakes(s, a);
      assert forall p :: At(t, p) == At(s, p);
      var rest := Drains(t);
      actions := [a] + rest;
      assert actions[1..] == rest;
    }
  }

  // ---- what is pushed, told from the steps alone ----

  /** The lines of the calls of one producer that format to something, in order. */
  function CalledBy(actions: seq<Action>, p: nat): seq<Line> {
    if actions == [] then []
    else (if actions[0].Call? && actions[0].p == p && actions[0].line != "" then [actions[0].line] else []) +
         CalledBy(actions[1..], p)
  }

  /** The lines a producer puts on the queue, in order. */
  function PushedBy(s: State, actions: seq<Action>, p: nat): seq<Line>
    requires Possible(s, actions)
    decreases |actions|
  {
    if actions == [] then []
    else (if actions[0] == PushP(p) then [At(s, p).line] else []) + PushedBy(Apply(s, actions[0]), actions[1..], p)
  }

  /** The lines of all pushes, in the order of the pushes. */
  function Pushes(s: State, actions: seq<Action>): seq<Line>
    requires Possible(s, actions)
    decreases |actions|
  {
    if actions == [] then []
    else (if actions[0].PushP? then [At(s, actions[0].p).line] else []) + Pushes(Apply(s, actions[0]), actions[1..])
  }

  function Held(s: State, p: nat): seq<Line> {
    if Carries(At(s, p)).Some? then [Carries(At(s, p)).value] else []
  }

  /** A producer pushes the lines it is called with, each once and in that order, but for the one in its hands. */
  lemma {:induction false} CallsArePushed(s: State, actions: seq<Action>, p: nat)
    requires Possible(s, actions)
    ensures Held(s, p) + CalledBy(actions, p) == PushedBy(s, actions, p) + Held(Run(s, actions), p)
    decreases |actions|
  {
    if actions != [] {
      var t := Apply(s, actions[0]);
      CallsArePushed(t, actions[1..], p);
      var called := if actions[0].Call? && actions[0].p == p && actions[0].line != "" then [actions[0].line] else [];
      var pushed := if actions[0] == PushP(p) then [At(s, p).line] else [];
      assert Held(s, p) + called == pushed + Held(t, p);
      hide Held, Apply, Enabled;
      Sum(Held(s, p), called, CalledBy(actions[1..], p));
      Sum(pushed, Held(t, p), CalledBy(actions[1..], p));
      Sum(pushed, PushedBy(t, actions[1..], p), Held(Run(s, actions), p));
    }
  }

  /** The history is what was pushed. */
  lemma {:induction false} HistoryIsPushes(s: State, actions: seq<Action>)
    requires Inv(s) && Possible(s, actions)
    ensures Run(s, actions).history == s.history + Pushes(s, actions)
    decreases |actions|
  {
    if actions != [] {
      var t := Apply(s, actions[0]);
      RunKeeps(s, [actions[0]]);
      assert Run(s, [actions[0]]) == t;
      HistoryIsPushes(t, actions[1..]);
      var pushed := if actions[0].PushP? then [At(s, actions[0].p).line] else [];
      assert t.history == s.history + pushed by {
        if actions[0].PushP? {
          assert NothingEmpty(s) && Carries(At(s, actions[0].p)).Some?;
        }
      }
      hide Inv, Apply, Enabled;
      Sum(s.history, pushed, Pushes(t, actions[1..]));
    }
  }
}
