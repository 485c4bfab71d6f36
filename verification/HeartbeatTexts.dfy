/** What the caller of the relay reads, yield by yield, in every run. */
module HeartbeatTexts {
  import opened Heartbeat

  // ---------------------------------------------------------------- relayed updates

  lemma {:induction false} ShownLength(job: Job, n: nat)
    requires n <= |job.child|
    ensures |Shown(job, n)| == n
  {
    if n > 0 {
      ShownLength(job, n - 1);
    }
  }

  lemma {:induction false} LastShown(job: Job, i: nat)
    requires i < |job.child|
    ensures |Shown(job, i + 1)| == i + 1 && Shown(job, i + 1)[i] == Relay(job, job.child[i])
  {
    ShownLength(job, i);
  }

  lemma {:induction false} ShownAt(job: Job, n: nat, i: nat)
    requires i < n <= |job.child|
    ensures i < |Shown(job, n)| && Shown(job, n)[i] == Relay(job, job.child[i])
  {
    LastShown(job, i);
    ShownPrefix(job, i + 1, n);
  }

  lemma {:induction false} FrontShown(job: Job, ys: seq<Yield>, i: nat)
    requires ys <= Shown(job, |job.child|) && i < |ys|
    ensures i < |job.child| && ys[i] == Relay(job, job.child[i])
  {
    ShownLength(job, |job.child|);
    ShownAt(job, |job.child|, i);
  }

  lemma {:induction false} RelayedIsFront(job: Job, actions: seq<Action>)
    ensures Relayed(Run(job, actions).out) <= Shown(job, |job.child|)
  {
    RelayRefinesChild(job, actions);
  }

  /** The update as the caller reads it: its text behind the prefix, if there is one, and its progress
      along the stage's range. */
  predicate Reads(job: Job, u: Update, y: Yield) {
    && y.progress == job.start + (job.end - job.start) * u.progress
    && y.text == (if job.prefix == "" then u.text else job.prefix + ": " + u.text)
  }

  lemma {:induction false} RelayReads(job: Job, u: Update)
    ensures Reads(job, u, Relay(job, u))
  {
  }

  /** The i-th yield that is no heartbeat shows the child's i-th update. */
  lemma {:induction false} RelayedReads(job: Job, actions: seq<Action>, i: nat)
    requires i < |Relayed(Run(job, actions).out)|
    ensures i < |job.child| && Reads(job, job.child[i], Relayed(Run(job, actions).out)[i])
  {
    RelayedIsFront(job, actions);
    FrontShown(job, Relayed(Run(job, actions).out), i);
    RelayReads(job, job.child[i]);
  }

  // ---------------------------------------------------------------- heartbeats

  /** The i-th yield is the n-th heartbeat in a row. */
  predicate IsNthIdle(out: seq<Yield>, i: nat, n: nat) {
    && 0 < n <= i + 1 <= |out|
    && (forall k :: i + 1 - n <= k <= i ==> out[k].isIdle)
    && (n <= i ==> !out[i - n].isIdle)
  }

  lemma {:induction false} TailIsCounted(out: seq<Yield>, i: nat, n: nat)
    requires IsNthIdle(out, i, n)
    ensures IdleTail(out[..i]) == n - 1
    decreases n
  {
    if n > 1 {
      TailIsCounted(out, i - 1, n - 1);
      assert out[..i][..i - 1] == out[..i - 1];
    }
  }

  lemma {:induction false} TrueUpTo(job: Job, out: seq<Yield>, i: nat)
    requires HeartbeatsTrue(job, out) && i < |out|
    ensures HeartbeatsTrue(job, out[..i]) && (out[i].isIdle ==> out[i] == NextHeartbeat(job, out[..i]))
    decreases |out|
  {
    var before := out[..|out| - 1];
    if i < |out| - 1 {
      TrueUpTo(job, before, i);
      assert before[..i] == out[..i];
    }
  }

  /** A heartbeat's progress is that of the last yield that was none. */
  lemma {:induction false} ProgressHeld(job: Job, out: seq<Yield>, i: nat, n: nat)
    requires HeartbeatsTrue(job, out) && IsNthIdle(out, i, n)
    ensures out[i].progress == if n <= i then out[i - n].progress else job.start
    decreases n
  {
    TrueUpTo(job, out, i);
    if n > 1 {
      ProgressHeld(job, out, i - 1, n - 1);
    }
  }

  lemma {:induction false} IdleReads(job: Job, out: seq<Yield>, i: nat, n: nat)
    requires HeartbeatsTrue(job, out) && IsNthIdle(out, i, n)
    ensures out[i].text == job.idle + " (" + job.seconds(n as real * job.heartbeat) + "s elapsed)"
  {
    TrueUpTo(job, out, i);
    TailIsCounted(out, i, n);
    assert Waited(IdleTail(out[..i]) + 1, job.heartbeat) == n as real * job.heartbeat;
    assert out[i].text == IdleText(job, n as real * job.heartbeat);
  }

  /** The n-th heartbeat in a row repeats the progress before it, and its text is the idle message with
      n intervals as the elapsed time. */
  lemma {:induction false} HeartbeatReads(job: Job, actions: seq<Action>, i: nat, n: nat)
    requires IsNthIdle(Run(job, actions).out, i, n)
    ensures var out := Run(job, actions).out;
      && out[i].progress == (if n <= i then out[i - n].progress else job.start)
      && out[i].text == job.idle + " (" + job.seconds(n as real * job.heartbeat) + "s elapsed)"
  {
    HeartbeatsTellTheTruth(job, actions);
    ProgressHeld(job, Run(job, actions).out, i, n);
    IdleReads(job, Run(job, actions).out, i, n);
  }

  /** With a negative interval the consumer's first step fails, and nothing is ever shown. */
  lemma {:induction false} NegativeIntervalFails(job: Job, actions: seq<Action>)
    requires job.heartbeat < 0.0
    ensures var s := Run(job, actions);
      s.out == [] && s.status ==
        if ConsumerTake in actions || ConsumerTimeout in actions then Raised(BadTimeout) else Running
  {
    if actions != [] {
      var front, last := actions[..|actions| - 1], actions[|actions| - 1];
      assert actions == front + [last];
      NegativeIntervalFails(job, front);
    }
  }
}
