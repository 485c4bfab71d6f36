/** Progress relayed from a worker thread to a consumer over a queue, with heartbeats while
    the worker is silent. */
module Heartbeat {
  datatype Update = Update(progress: real, text: string)

  datatype Ending = Finished | Failed(error: string)

  /** A child stage, as the updates it will report and how it ends, and how to show it;
      `seconds` writes an elapsed time. */
  datatype Job = Job(child: seq<Update>, ending: Ending, start: real, end: real, heartbeat: real,
                     idle: string, seconds: real -> string, prefix: string)

  datatype Item = Progress(update: Update) | Done | Err(error: string)

  datatype Yield = Yield(progress: real, text: string, isIdle: bool)

  datatype Failure = FromChild(error: string) | BadTimeout

  datatype Status = Running | Returned | Raised(failure: Failure)

  datatype State = State(sent: nat, queue: seq<Item>, lastProgress: real, elapsed: real, out: seq<Yield>,
                         status: Status)

  datatype Action = WorkerPut | ConsumerTake | ConsumerTimeout

  // ---------------------------------------------------------------- texts

  function IdleText(job: Job, elapsed: real): string { job.idle + " (" + job.seconds(elapsed) + "s elapsed)" }

  function Along(lo: real, span: real, x: real): real { lo + span * x }

  function Relay(job: Job, u: Update): Yield {
    Yield(Along(job.start, job.end - job.start, u.progress),
          if job.prefix != "" then job.prefix + ": " + u.text else u.text, false)
  }

  // ---------------------------------------------------------------- the protocol

  function Initial(job: Job): State { State(0, [], job.start, 0.0, [], Running) }

  /** What the worker puts on the queue, in order. */
  function ItemAt(job: Job, i: nat): Item
    requires i <= |job.child|
  {
    if i < |job.child| then Progress(job.child[i])
    else match job.ending case Finished => Done case Failed(e) => Err(e)
  }

  function Put(job: Job, s: State): State {
    if s.sent > |job.child| then s else s.(queue := s.queue + [ItemAt(job, s.sent)], sent := s.sent + 1)
  }

  function Take(job: Job, s: State): State {
    if s.queue == [] then s
    else
      var s' := s.(queue := s.queue[1..]);
      match s.queue[0]
      case Err(e) => s'.(status := Raised(FromChild(e)))
      case Done => s'.(status := Returned)
      case Progress(u) =>
        var y := Relay(job, u);
        s'.(lastProgress := y.progress, elapsed := 0.0, out := s.out + [y])
  }

  /** The wait ends empty-handed only while the queue is empty. */
  function Timeout(job: Job, s: State): State {
    if s.queue != [] then s
    else
      var elapsed := s.elapsed + job.heartbeat;
      s.(elapsed := elapsed, out := s.out + [Yield(s.lastProgress, IdleText(job, elapsed), true)])
  }

  /** One step of either thread; a step that cannot be taken changes nothing. */
  function Step(job: Job, s: State, a: Action): State {
    if a == WorkerPut then Put(job, s)
    else if s.status != Running then s
    else if job.heartbeat < 0.0 then s.(status := Raised(BadTimeout))
    else if a == ConsumerTake then Take(job, s)
    else Timeout(job, s)
  }

  /** Any interleaving. */
  function Run(job: Job, actions: seq<Action>): State {
    if actions == [] then Initial(job) else Step(job, Run(job, actions[..|actions| - 1]), actions[|actions| - 1])
  }

  /** The queue and the consumer's variables, changed in place by the two threads. */
  class Channel {
    const job: Job
    var sent: nat
    var queue: seq<Item>
    var lastProgress: real
    var elapsed: real
    var out: seq<Yield>
    var status: Status

    function Now(): State
      reads this
    {
      State(sent, queue, lastProgress, elapsed, out, status)
    }

    constructor (job: Job)
      ensures this.job == job && Now() == Initial(job)
    {
      this.job := job;
      sent, queue := 0, [];
      lastProgress, elapsed, out, status := job.start, 0.0, [], Running;
    }

    method WorkerStep()
      modifies this`sent, this`queue
      ensures Now() == Step(job, old(Now()), WorkerPut)
    {
      if sent < |job.child| {
        queue := queue + [Progress(job.child[sent])];
        sent := sent + 1;
      } else if sent == |job.child| {
        match job.ending {
          case Finished => queue := queue + [Done];
          case Failed(e) => queue := queue + [Err(e)];
        }
        sent := sent + 1;
      }
    }

    method ConsumerStep(timesOut: bool)
      modifies this`queue, this`lastProgress, this`elapsed, this`out, this`status
      ensures Now() == Step(job, old(Now()), if timesOut then ConsumerTimeout else ConsumerTake)
    {
      if status != Running {
        return;
      }
      if job.heartbeat < 0.0 {
        status := Raised(BadTimeout);
        return;
      }
      if timesOut {
        if queue == [] {
          elapsed := elapsed + job.heartbeat;
          out := out + [Yield(lastProgress, IdleText(job, elapsed), true)];
        }
        return;
      }
      if queue != [] {
        var item := queue[0];
        queue := queue[1..];
        match item {
          case Err(e) => status := Raised(FromChild(e));
          case Done => status := Returned;
          case Progress(u) =>
            lastProgress := Along(job.start, job.end - job.start, u.progress);
            elapsed := 0.0;
            var text := if job.prefix != "" then job.prefix + ": " + u.text else u.text;
            out := out + [Yield(lastProgress, text, false)];
        }
      }
    }

    method Interleave(actions: seq<Action>)
      requires Now() == Initial(job)
      modifies this
      ensures Now() == Run(job, actions)
    {
      var i := 0;
      assert actions[..0] == [];
      while i < |actions|
        invariant i <= |actions| && Now() == Run(job, actions[..i])
      {
        assert actions[..i + 1][..i] == actions[..i];
        if actions[i] == WorkerPut {
          WorkerStep();
        } else {
          ConsumerStep(actions[i] == ConsumerTimeout);
        }
        i := i + 1;
      }
      assert actions[..i] == actions;
    }
  }

  // ---------------------------------------------------------------- what every run keeps

  /** The yields that are not heartbeats. */
  function Relayed(out: seq<Yield>): seq<Yield> {
    if out == [] then []
    else Relayed(out[..|out| - 1]) + if out[|out| - 1].isIdle then [] else [out[|out| - 1]]
  }

  /** The child's first `n` updates as the caller should see them. */
  function Shown(job: Job, n: nat): seq<Yield>
    requires n <= |job.child|
  {
    if n == 0 then [] else Shown(job, n - 1) + [Relay(job, job.child[n - 1])]
  }

  /** How many heartbeats the output ends in. */
  function IdleTail(out: seq<Yield>): nat {
    if out != [] && out[|out| - 1].isIdle then 1 + IdleTail(out[..|out| - 1]) else 0
  }

  function LastProgress(job: Job, out: seq<Yield>): real {
    if out == [] then job.start else out[|out| - 1].progress
  }

  function Waited(n: nat, heartbeat: real): real { n as real * heartbeat }

  /** The next heartbeat repeats the progress before it and tells how long the silence has
      lasted. */
  function NextHeartbeat(job: Job, out: seq<Yield>): Yield {
    Yield(LastProgress(job, out), IdleText(job, Waited(IdleTail(out) + 1, job.heartbeat)), true)
  }

  predicate HeartbeatsTrue(job: Job, out: seq<Yield>) {
    out == [] ||
      var before, y := out[..|out| - 1], out[|out| - 1];
      HeartbeatsTrue(job, before) && (y.isIdle ==> y == NextHeartbeat(job, before))
  }

  predicate InStep(job: Job, s: State) {
    && |s.queue| <= s.sent <= |job.child| + 1
    && (forall i :: 0 <= i < |s.queue| ==> s.queue[i] == ItemAt(job, s.sent - |s.queue| + i))
  }

  /** How many updates of the child the consumer has taken. */
  function Seen(job: Job, s: State): nat
    requires InStep(job, s)
  {
    if s.sent - |s.queue| <= |job.child| then s.sent - |s.queue| else |job.child|
  }

  /** What was relayed, and how the relay stands, against the items taken. */
  predicate Faithful(job: Job, s: State) {
    && InStep(job, s)
    && Relayed(s.out) == Shown(job, Seen(job, s))
    && match s.status
       case Running => s.sent - |s.queue| <= |job.child|
       case Returned => s.sent - |s.queue| == |job.child| + 1 && job.ending == Finished
       case Raised(FromChild(e)) => s.sent - |s.queue| == |job.child| + 1 && job.ending == Failed(e)
       case Raised(BadTimeout) => job.heartbeat < 0.0 && s.out == []
  }

  predicate Timed(job: Job, s: State) {
    && s.lastProgress == LastProgress(job, s.out)
    && s.elapsed == Waited(IdleTail(s.out), job.heartbeat)
    && HeartbeatsTrue(job, s.out)
  }

  lemma {:induction false} PutFaithful(job: Job, s: State)
    requires Faithful(job, s)
    ensures Faithful(job, Put(job, s))
  {
    PutInStep(job, s);
  }

  lemma {:induction false} PutInStep(job: Job, s: State)
    requires InStep(job, s)
    ensures InStep(job, Put(job, s)) && Seen(job, Put(job, s)) == Seen(job, s)
  {
  }

  lemma {:induction false} TakeUpdate(job: Job, s: State)
    requires Faithful(job, s) && s.status == Running && s.queue != [] && s.queue[0].Progress?
    ensures Faithful(job, Take(job, s))
  {
    var n := s.sent - |s.queue|;
    assert s.queue[0] == ItemAt(job, n);
    RelayedSnoc(s.out, Relay(job, job.child[n]));
  }

  lemma {:induction false} TakeEnd(job: Job, s: State)
    requires Faithful(job, s) && s.status == Running && s.queue != [] && !s.queue[0].Progress?
    ensures Faithful(job, Take(job, s))
  {
    assert s.queue[0] == ItemAt(job, s.sent - |s.queue|);
  }

  lemma {:induction false} TakeFaithful(job: Job, s: State)
    requires Faithful(job, s) && s.status == Running
    ensures Faithful(job, Take(job, s))
  {
    if s.queue != [] {
      if s.queue[0].Progress? {
        TakeUpdate(job, s);
      } else {
        TakeEnd(job, s);
      }
    }
  }

  lemma {:induction false} RelayedSnoc(out: seq<Yield>, y: Yield)
    ensures Relayed(out + [y]) == Relayed(out) + if y.isIdle then [] else [y]
  {
    assert (out + [y])[..|out|] == out;
  }

  lemma {:induction false} IdleFaithful(job: Job, s: State, y: Yield, elapsed: real)
    requires Faithful(job, s) && s.status == Running && y.isIdle
    ensures Faithful(job, s.(elapsed := elapsed, out := s.out + [y]))
  {
    RelayedSnoc(s.out, y);
  }

  lemma {:induction false} TimeoutFaithful(job: Job, s: State)
    requires Faithful(job, s) && s.status == Running
    ensures Faithful(job, Timeout(job, s))
  {
    if s.queue == [] {
      var s' := Timeout(job, s);
      IdleFaithful(job, s, s'.out[|s.out|], s'.elapsed);
      assert s' == s.(elapsed := s'.elapsed, out := s.out + [s'.out[|s.out|]]);
    }
  }

  /** Over every interleaving: what was relayed is what the child reported, up to the items
      taken. */
  lemma {:induction false} RunFaithful(job: Job, actions: seq<Action>)
    ensures Faithful(job, Run(job, actions))
    ensures job.heartbeat < 0.0 ==> Run(job, actions).out == []
  {
    if actions != [] {
      var before := actions[..|actions| - 1];
      RunFaithful(job, before);
      StepFaithful(job, Run(job, before), actions[|actions| - 1]);
    }
  }

  lemma {:induction false} StepFaithful(job: Job, s: State, a: Action)
    requires Faithful(job, s) && (job.heartbeat < 0.0 ==> s.out == [])
    ensures Faithful(job, Step(job, s, a)) && (job.heartbeat < 0.0 ==> Step(job, s, a).out == [])
  {
    if a == WorkerPut {
      PutFaithful(job, s);
    } else if s.status == Running && job.heartbeat >= 0.0 {
      if a == ConsumerTake {
        TakeFaithful(job, s);
      } else {
        TimeoutFaithful(job, s);
      }
    }
  }

  lemma {:induction false} SnocTimed(job: Job, out: seq<Yield>, y: Yield)
    requires HeartbeatsTrue(job, out) && (y.isIdle ==> y == NextHeartbeat(job, out))
    ensures HeartbeatsTrue(job, out + [y])
    ensures IdleTail(out + [y]) == if y.isIdle then IdleTail(out) + 1 else 0
  {
    assert (out + [y])[..|out|] == out;
  }

  lemma {:induction false} OneMore(n: nat, h: real)
    ensures Waited(n + 1, h) == Waited(n, h) + h
  {
    assert (n + 1) as real == n as real + 1.0;
  }

  lemma {:induction false} TimeoutTimed(job: Job, s: State)
    requires Timed(job, s)
    ensures Timed(job, Timeout(job, s))
  {
    var elapsed := s.elapsed + job.heartbeat;
    OneMore(IdleTail(s.out), job.heartbeat);
    SnocTimed(job, s.out, Yield(s.lastProgress, IdleText(job, elapsed), true));
  }

  lemma {:induction false} TakeTimed(job: Job, s: State)
    requires Timed(job, s)
    ensures Timed(job, Take(job, s))
  {
    if s.queue != [] && s.queue[0].Progress? {
      SnocTimed(job, s.out, Relay(job, s.queue[0].update));
    }
  }

  /** Over every interleaving, each heartbeat repeats the last progress shown and gives the
      time since the child was last heard. */
  lemma {:induction false} HeartbeatsTellTheTruth(job: Job, actions: seq<Action>)
    ensures Timed(job, Run(job, actions))
  {
    if actions != [] {
      var before := actions[..|actions| - 1];
      HeartbeatsTellTheTruth(job, before);
      StepTimed(job, Run(job, before), actions[|actions| - 1]);
    }
  }

  lemma {:induction false} StepTimed(job: Job, s: State, a: Action)
    requires Timed(job, s)
    ensures Timed(job, Step(job, s, a))
  {
    if a != WorkerPut && s.status == Running && job.heartbeat >= 0.0 {
      if a == ConsumerTake {
        TakeTimed(job, s);
      } else {
        TimeoutTimed(job, s);
      }
    }
  }

  lemma {:induction false} PrefixGrows<T>(a: seq<T>, b: seq<T>, x: T)
    requires a <= b
    ensures a <= b + [x]
  {
  }

  lemma {:induction false} ShownPrefix(job: Job, m: nat, n: nat)
    requires m <= n <= |job.child|
    ensures Shown(job, m) <= Shown(job, n)
    decreases n
  {
    if m < n {
      ShownPrefix(job, m, n - 1);
      PrefixGrows(Shown(job, m), Shown(job, n - 1), Relay(job, job.child[n - 1]));
    }
  }

  /** The relayed yields are always a prefix of the child's updates; a normal return or the
      child's own error comes only after all of them. */
  lemma {:induction false} RelayRefinesChild(job: Job, actions: seq<Action>)
    ensures var s := Run(job, actions);
      && Relayed(s.out) <= Shown(job, |job.child|)
      && (s.status == Returned ==> job.ending == Finished && Relayed(s.out) == Shown(job, |job.child|))
      && (forall e :: s.status == Raised(FromChild(e)) ==>
        job.ending == Failed(e) && Relayed(s.out) == Shown(job, |job.child|))
      && (s.status == Raised(BadTimeout) ==> job.heartbeat < 0.0)
  {
    RunFaithful(job, actions);
    ShownPrefix(job, Seen(job, Run(job, actions)), |job.child|);
  }

  // ---------------------------------------------------------------- progress

  /** Within the stage's range and never going back. */
  predicate InOrder(job: Job, out: seq<Yield>) {
    out == [] ||
      var before, p := out[..|out| - 1], out[|out| - 1].progress;
      InOrder(job, before) && LastProgress(job, before) <= p <= job.end
  }

  /** The child's first `n` updates: within [0, 1] and never going back. */
  predicate ChildInOrder(job: Job, n: nat)
    requires n <= |job.child|
  {
    && (forall i :: 0 <= i < n ==> 0.0 <= job.child[i].progress <= 1.0)
    && (forall i :: 0 < i < n ==> job.child[i - 1].progress <= job.child[i].progress)
  }

  lemma {:induction false} AlongOrder(lo: real, span: real, x: real, y: real)
    requires span > 0.0
    ensures Along(lo, span, x) <= Along(lo, span, y) <==> x <= y
    ensures Along(lo, span, 0.0) == lo && Along(lo, span, 1.0) == lo + span
  {
    assert span * (x - y) == span * x - span * y;
    if x > y {
      assert span * (x - y) > 0.0;
    } else {
      assert span * (y - x) >= 0.0;
    }
  }

  lemma {:induction false} RelayOrder(job: Job, u: Update, v: Update)
    requires job.start < job.end
    ensures Relay(job, u).progress <= Relay(job, v).progress <==> u.progress <= v.progress
    ensures job.start <= Relay(job, u).progress <==> 0.0 <= u.progress
    ensures Relay(job, u).progress <= job.end <==> u.progress <= 1.0
  {
    var span := job.end - job.start;
    AlongOrder(job.start, span, u.progress, v.progress);
    AlongOrder(job.start, span, 0.0, u.progress);
    AlongOrder(job.start, span, u.progress, 1.0);
  }

  lemma {:induction false} ShownInOrder(job: Job, n: nat)
    requires n <= |job.child| && job.start < job.end
    ensures InOrder(job, Shown(job, n)) <==> ChildInOrder(job, n)
    ensures LastProgress(job, Shown(job, n)) == if n == 0 then job.start else Relay(job, job.child[n - 1]).progress
  {
    if n > 0 {
      ShownInOrder(job, n - 1);
      var all := Shown(job, n);
      assert all[..|all| - 1] == Shown(job, n - 1);
      RelayOrder(job, if n > 1 then job.child[n - 2] else job.child[n - 1], job.child[n - 1]);
      RelayOrder(job, job.child[n - 1], job.child[n - 1]);
      ChildSnoc(job, n);
    }
  }

  lemma {:induction false} ChildSnoc(job: Job, n: nat)
    requires 0 < n <= |job.child|
    ensures ChildInOrder(job, n) <==>
      ChildInOrder(job, n - 1)
        && (if n == 1 then 0.0 else job.child[n - 2].progress) <= job.child[n - 1].progress <= 1.0
  {
    if ChildInOrder(job, n) && n > 1 {
      assert job.child[n - 1 - 1].progress <= job.child[n - 1].progress;
    }
  }

  lemma {:induction false} NoSpan(job: Job, u: Update)
    requires job.start == job.end
    ensures Relay(job, u).progress == job.start
  {
    assert 0.0 * u.progress == 0.0;
  }

  lemma {:induction false} ShownStill(job: Job, n: nat)
    requires n <= |job.child| && job.start == job.end
    ensures forall i :: 0 <= i < |Shown(job, n)| ==> Shown(job, n)[i].progress == job.start
  {
    if n > 0 {
      ShownStill(job, n - 1);
      NoSpan(job, job.child[n - 1]);
    }
  }

  lemma {:induction false} StillInOrder(job: Job, out: seq<Yield>)
    requires job.start == job.end && forall i :: 0 <= i < |out| ==> out[i].progress == job.start
    ensures InOrder(job, out) && LastProgress(job, out) == job.start
  {
    if out != [] {
      StillInOrder(job, out[..|out| - 1]);
    }
  }

  lemma {:induction false} InOrderLast(job: Job, out: seq<Yield>)
    requires job.start <= job.end && InOrder(job, out)
    ensures job.start <= LastProgress(job, out) <= job.end
  {
    if out != [] {
      InOrderLast(job, out[..|out| - 1]);
    }
  }

  /** Heartbeats neither hide nor make a step back. */
  lemma {:induction false} OrderSurvivesHeartbeats(job: Job, out: seq<Yield>)
    requires HeartbeatsTrue(job, out) && job.start <= job.end
    ensures InOrder(job, out) <==> InOrder(job, Relayed(out))
    ensures LastProgress(job, out) == LastProgress(job, Relayed(out))
  {
    if out != [] {
      var before, y := out[..|out| - 1], out[|out| - 1];
      OrderSurvivesHeartbeats(job, before);
      if !y.isIdle {
        assert Relayed(out)[..|Relayed(out)| - 1] == Relayed(before);
      } else {
        assert Relayed(out) == Relayed(before);
        if InOrder(job, before) {
          InOrderLast(job, before);
        }
      }
    }
  }

  lemma {:induction false} ChildPrefix(job: Job, m: nat, n: nat)
    requires m <= n <= |job.child| && ChildInOrder(job, n)
    ensures ChildInOrder(job, m)
  {
  }

  /** Every yield, heartbeats included, stays within the stage's range and never goes back. */
  lemma {:induction false} ProgressInOrder(job: Job, actions: seq<Action>)
    requires ChildInOrder(job, |job.child|) && job.start <= job.end
    ensures InOrder(job, Run(job, actions).out)
  {
    RunFaithful(job, actions);
    HeartbeatsTellTheTruth(job, actions);
    var s := Run(job, actions);
    OrderSurvivesHeartbeats(job, s.out);
    if job.start == job.end {
      ShownStill(job, Seen(job, s));
      StillInOrder(job, Shown(job, Seen(job, s)));
    } else {
      ChildPrefix(job, Seen(job, s), |job.child|);
      ShownInOrder(job, Seen(job, s));
    }
  }

  /** And over a finished run of a stage with a range to fill, only then. */
  lemma {:induction false} ProgressInOrderExactly(job: Job, actions: seq<Action>)
    requires job.start < job.end && Run(job, actions).status == Returned
    ensures InOrder(job, Run(job, actions).out) <==> ChildInOrder(job, |job.child|)
  {
    RelayRefinesChild(job, actions);
    HeartbeatsTellTheTruth(job, actions);
    OrderSurvivesHeartbeats(job, Run(job, actions).out);
    ShownInOrder(job, |job.child|);
  }

  // ---------------------------------------------------------------- finishing

  /** Puts still to come, and takes still to come. */
  function Remaining(job: Job, s: State): nat
    requires InStep(job, s)
  {
    2 * (|job.child| + 1 - s.sent) + |s.queue|
  }

  /** A run is never stuck: until it is over, the worker or the consumer has a step that
      brings the end nearer, and a heartbeat never puts it further off. */
  lemma {:induction false} AlwaysAdvances(job: Job, actions: seq<Action>, a: Action)
    requires job.heartbeat >= 0.0
    ensures Faithful(job, Run(job, actions)) && Faithful(job, Run(job, actions + [a]))
    ensures var s, s' := Run(job, actions), Run(job, actions + [a]);
      && (s' != s && a != ConsumerTimeout ==> Remaining(job, s') == Remaining(job, s) - 1)
      && (a == ConsumerTimeout ==> Remaining(job, s') == Remaining(job, s))
      && (s.status == Running ==> Remaining(job, s) > 0)
      && (s.status == Running ==> Step(job, s, WorkerPut) != s || Step(job, s, ConsumerTake) != s)
  {
    RunFaithful(job, actions);
    RunFaithful(job, actions + [a]);
    assert (actions + [a])[..|actions|] == actions;
    var s := Run(job, actions);
    if s.status == Running && s.queue != [] {
      assert |Take(job, s).queue| == |s.queue| - 1;
    }
  }

  lemma {:induction false} NextStep(job: Job, actions: seq<Action>) returns (a: Action)
    requires job.heartbeat >= 0.0 && Run(job, actions).status == Running
    ensures InStep(job, Run(job, actions)) && InStep(job, Run(job, actions + [a]))
    ensures Remaining(job, Run(job, actions + [a])) < Remaining(job, Run(job, actions))
  {
    RunFaithful(job, actions);
    var s := Run(job, actions);
    a := if Step(job, s, WorkerPut) != s then WorkerPut else ConsumerTake;
    AlwaysAdvances(job, actions, a);
    RunSnoc(job, actions, a);
  }

  lemma {:induction false} EndIsTheChilds(job: Job, actions: seq<Action>)
    requires job.heartbeat >= 0.0 && Run(job, actions).status != Running
    ensures Run(job, actions).status
      == match job.ending case Finished => Returned case Failed(e) => Raised(FromChild(e))
  {
    RunFaithful(job, actions);
  }

  /** Every run can be brought to its end, which is the child's own. */
  lemma {:induction false} EveryRunCanFinish(job: Job, actions: seq<Action>) returns (more: seq<Action>)
    requires job.heartbeat >= 0.0
    ensures Run(job, actions + more).status
      == match job.ending case Finished => Returned case Failed(e) => Raised(FromChild(e))
    decreases if InStep(job, Run(job, actions)) then Remaining(job, Run(job, actions)) else 0
  {
    if Run(job, actions).status != Running {
      more := [];
      assert actions + more == actions;
      EndIsTheChilds(job, actions);
    } else {
      var a := NextStep(job, actions);
      more := EveryRunCanFinish(job, actions + [a]);
      assert actions + [a] + more == actions + ([a] + more);
      more := [a] + more;
    }
  }

  lemma {:induction false} RunSnoc(job: Job, actions: seq<Action>, a: Action)
    ensures Run(job, actions + [a]) == Step(job, Run(job, actions), a)
  {
    assert (actions + [a])[..|actions|] == actions;
  }

  // ---------------------------------------------------------------- a single call

  /** A call that reports nothing while it runs is a child without updates. */
  function Call(ending: Ending, progress: real, heartbeat: real, message: string, seconds: real -> string): Job {
    Job([], ending, progress, progress, heartbeat, message, seconds, "")
  }

  lemma {:induction false} OnlyHeartbeats(job: Job, out: seq<Yield>, i: nat)
    requires HeartbeatsTrue(job, out) && Relayed(out) == []
    ensures IdleTail(out) == |out| && LastProgress(job, out) == job.start
    ensures i < |out| ==> out[i] == Yield(job.start, IdleText(job, Waited(i + 1, job.heartbeat)), true)
  {
    if out != [] {
      OnlyHeartbeats(job, out[..|out| - 1], i);
    }
  }

  /** While a call runs, the i-th thing the caller sees is a heartbeat that tells i + 1
      intervals have passed; the call ends as the function does. */
  lemma {:induction false} CallShowsItsWait(ending: Ending, progress: real, heartbeat: real, message: string,
                                            seconds: real -> string,
                                            actions: seq<Action>, i: nat)
    requires heartbeat > 0.0
    ensures var job := Call(ending, progress, heartbeat, message, seconds);
      var s := Run(job, actions);
      && (i < |s.out| ==> s.out[i] == Yield(progress, IdleText(job, Waited(i + 1, heartbeat)), true))
      && (s.status == Returned ==> ending == Finished)
      && (forall e :: s.status == Raised(FromChild(e)) ==> ending == Failed(e))
  {
    var job := Call(ending, progress, heartbeat, message, seconds);
    RelayRefinesChild(job, actions);
    HeartbeatsTellTheTruth(job, actions);
    OnlyHeartbeats(job, Run(job, actions).out, i);
  }
}
