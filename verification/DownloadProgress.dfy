/** The download protocol ends, delivers everything and starts a bounded number
    of file downloads. */
module DownloadProgress {
  import opened ModelInfo
  import opened DownloadProtocol
  import opened DownloadLaws

  function QueueWeight(queue: seq<Job>): nat {
    if queue == [] then 0 else (if queue[0].Register? then 3 else 1) + QueueWeight(queue[1..])
  }

  function Size(t: Task): nat {
    if t.status == Complete then 0 else |Calls(t.completion)|
  }

  function TasksSize(tasks: seq<Task>): nat {
    if tasks == [] then 0 else TasksSize(tasks[..|tasks| - 1]) + Size(tasks[|tasks| - 1])
  }

  function Budget(retries: int): nat {
    if retries > 0 then retries else 0
  }

  /** What is left to do: each request weighs less the further it has come, and a
      retry costs what it adds. */
  function Left(s: State): nat {
    4 * |s.awaiting| + QueueWeight(s.queue) + 2 * TasksSize(s.tasks) + 4 * Budget(s.retries)
  }

  lemma {:induction false} QueueWeightAppend(q: seq<Job>, job: Job)
    ensures QueueWeight(q + [job]) == QueueWeight(q) + (if job.Register? then 3 else 1)
  {
    if q == [] {
      assert q + [job] == [job];
    } else {
      assert (q + [job])[1..] == q[1..] + [job];
      QueueWeightAppend(q[1..], job);
    }
  }

  lemma {:induction false} TasksSizeUpdate(tasks: seq<Task>, k: nat, t: Task)
    requires k < |tasks|
    ensures TasksSize(tasks[k := t]) == TasksSize(tasks) - Size(tasks[k]) + Size(t)
  {
    var n := |tasks| - 1;
    if k == n {
      assert tasks[k := t][..n] == tasks[..n];
    } else {
      assert tasks[k := t][..n] == tasks[..n][k := t];
      TasksSizeUpdate(tasks[..n], k, t);
    }
  }

  lemma FinishLeft(s: State, r: Request, result: Outcome)
    ensures Left(Finish(s, r, result)) <= Left(s) + 1
  {
    QueueWeightAppend(s.queue, Remove(NameOf(s, r)));
  }

  lemma {:induction false} CompletionLeft(s: State, c: Completion, result: Outcome)
    ensures Left(RunCompletion(s, c, result)) <= Left(s) + |Calls(c)|
    decreases c
  {
    match c
    case Only(r) =>
      FinishLeft(s, r, result);
    case Both(a, b) =>
      CompletionLeft(s, a, result);
      CompletionLeft(RunCompletion(s, a, result), b, result);
  }

  lemma RegisterLeft(s: State, r: Request, info: RemoteModelInfo)
    requires forall t: nat :: t < |s.tasks| ==> s.tasks[t].status != Ready
    ensures Left(RunRegister(s, r, info)) == Left(s) + 2
  {
    var name := NameOf(s, r);
    if CanMerge(s, name) {
      var t := s.current[name];
      var merged := s.tasks[t].(completion := Both(s.tasks[t].completion, Only(r)));
      TasksSizeUpdate(s.tasks, t, merged);
      assert Calls(Only(r)) == [r];
    } else {
      var task := Task(info, name, r, Downloading, Only(r));
      assert RunRegister(s, r, info).tasks == s.tasks + [task];
      assert (s.tasks + [task])[..|s.tasks|] == s.tasks;
      assert Size(task) == 1;
    }
  }

  /** Every step other than a new request leaves less to do. */
  lemma StepLeft(s: State, e: Event)
    requires Inv(s) && Enabled(s, e) && !e.NewRequest?
    ensures Left(Next(s, e)) < Left(s)
  {
    match e
    case Reply(r, reply) =>
      if reply.NewInfo? {
        QueueWeightAppend(s.queue, Register(r, reply.info));
      }
    case RunHead =>
      var s' := s.(queue := s.queue[1..]);
      if s.queue[0].Register? {
        forall t: nat | t < |s'.tasks| ensures s'.tasks[t].status != Ready {
          assert TaskOk(s, t);
        }
        RegisterLeft(s', s.queue[0].request, s.queue[0].info);
      }
    case FileCallback(d, result) =>
      assert InFlight(s, d);
      var t := s.slots[d];
      TasksSizeUpdate(s.tasks, t, s.tasks[t].(status := Complete));
      CompletionLeft(CompleteTask(s, d), s.tasks[t].completion, result);
  }

  /** Without new requests every run ends, after at most as many steps as there is left to do. */
  lemma {:induction false} RunsEnd(s: State, es: seq<Event>, s': State)
    requires Inv(s) && Runs(s, es, s') && forall e <- es :: !e.NewRequest?
    ensures |es| + Left(s') <= Left(s)
    decreases |es|
  {
    if es != [] {
      StepLeft(s, es[0]);
      StepKeepsInv(s, es[0]);
      RunsEnd(Next(s, es[0]), es[1..], s');
    }
  }

  /** A state in which nothing but a new request can happen. */
  ghost predicate AtRest(s: State) {
    forall e :: Enabled(s, e) ==> e.NewRequest?
  }

  lemma {:induction false} NothingHeld(tasks: seq<Task>, r: Request)
    requires forall t: nat :: t < |tasks| ==> tasks[t].status == Complete
    ensures InTasks(tasks, r) == 0
  {
    if tasks != [] {
      NothingHeld(tasks[..|tasks| - 1], r);
    }
  }

  /** When a run comes to rest, every request has been delivered exactly once. */
  lemma RestDeliversAll(s: State, r: Request)
    requires Inv(s) && AtRest(s)
    ensures Deliveries(s.delivered, r) == Bit(r in s.names)
  {
    if s.queue != [] {
      assert Enabled(s, RunHead);
    }
    if r in s.awaiting {
      assert Enabled(s, Reply(r, InfoFailed(NotFound)));
    }
    forall t: nat | t < |s.tasks| ensures s.tasks[t].status == Complete {
      assert TaskOk(s, t);
      if s.tasks[t].status == Downloading {
        var d := s.tasks[t].downloader;
        assert InFlight(s, d);
        assert Enabled(s, FileCallback(d, Failure(NotFound)));
      }
    }
    NothingHeld(s.tasks, r);
    assert Places(s, r) == Bit(r in s.names);
  }

  // ----- how many downloads

  function Registrations(queue: seq<Job>): nat {
    if queue == [] then 0 else Bit(queue[0].Register?) + Registrations(queue[1..])
  }

  /** Downloads started and registrations still to come, against the requests issued
      and the retries that are left. */
  function Started(s: State): int {
    |s.tasks| + |s.awaiting| + Registrations(s.queue) + s.retries - |s.names|
  }

  lemma {:induction false} RegistrationsAppend(q: seq<Job>, job: Job)
    ensures Registrations(q + [job]) == Registrations(q) + Bit(job.Register?)
  {
    if q == [] {
      assert q + [job] == [job];
    } else {
      assert (q + [job])[1..] == q[1..] + [job];
      RegistrationsAppend(q[1..], job);
    }
  }

  lemma {:induction false} CompletionStarted(s: State, c: Completion, result: Outcome)
    ensures var s' := RunCompletion(s, c, result);
      Started(s') == Started(s) && (s.retries >= 0 ==> s'.retries >= 0)
    decreases c
  {
    match c
    case Only(r) =>
      RegistrationsAppend(s.queue, Remove(NameOf(s, r)));
    case Both(a, b) =>
      CompletionStarted(s, a, result);
      CompletionStarted(RunCompletion(s, a, result), b, result);
  }

  lemma ReplyStarted(s: State, r: Request, reply: InfoReply)
    requires r in s.awaiting
    ensures var s' := Next(s, Reply(r, reply)); Started(s') <= Started(s) && s'.retries == s.retries
  {
    if reply.NewInfo? {
      RegistrationsAppend(s.queue, Register(r, reply.info));
    }
  }

  lemma RegisterStarted(s: State, r: Request, info: RemoteModelInfo)
    ensures var s' := RunRegister(s, r, info); Started(s') <= Started(s) + 1 && s'.retries == s.retries
  {
  }

  lemma StepStarted(s: State, e: Event)
    requires Inv(s) && Enabled(s, e)
    ensures Started(Next(s, e)) <= Started(s) && (s.retries >= 0 ==> Next(s, e).retries >= 0)
  {
    match e
    case NewRequest(r, name) =>
      assert |s.names[r := name]| == |s.names| + 1;
    case Reply(r, reply) =>
      ReplyStarted(s, r, reply);
    case RunHead =>
      if s.queue[0].Register? {
        RegisterStarted(s.(queue := s.queue[1..]), s.queue[0].request, s.queue[0].info);
      }
    case FileCallback(d, result) =>
      CompletionStarted(CompleteTask(s, d), s.tasks[s.slots[d]].completion, result);
  }

  lemma {:induction false} RunStarted(s: State, es: seq<Event>, s': State)
    requires Inv(s) && Runs(s, es, s')
    ensures Started(s') <= Started(s) && (s.retries >= 0 ==> s'.retries >= 0)
    decreases |es|
  {
    if es != [] {
      StepStarted(s, es[0]);
      StepKeepsInv(s, es[0]);
      RunStarted(Next(s, es[0]), es[1..], s');
    }
  }

  /** Each task has started exactly one file download. */
  ghost predicate StartedOnce(s: State) {
    |s.started| == |s.tasks| && forall k :: 0 <= k < |s.started| ==> s.started[k] == k
  }

  lemma StepStartsOnce(s: State, e: Event)
    requires Inv(s) && StartedOnce(s) && Enabled(s, e)
    ensures StartedOnce(Next(s, e))
  {
    match e
    case NewRequest(_, _) =>
    case Reply(_, _) =>
    case RunHead =>
      if s.queue[0].Register? {
        QueuedNotInFlight(s, s.queue[0].request);
        if CanMerge(s, s.names[s.queue[0].request]) {
          assert TaskOk(s, s.current[s.names[s.queue[0].request]]);
        }
      }
    case FileCallback(d, result) =>
      CompletionFrame(CompleteTask(s, d), s.tasks[s.slots[d]].completion, result);
  }

  lemma {:induction false} RunStartsOnce(s: State, es: seq<Event>, s': State)
    requires Inv(s) && StartedOnce(s) && Runs(s, es, s')
    ensures StartedOnce(s')
    decreases |es|
  {
    if es != [] {
      StepStartsOnce(s, es[0]);
      StepKeepsInv(s, es[0]);
      RunStartsOnce(Next(s, es[0]), es[1..], s');
    }
  }

  /** Every task starts one file download, and downloads never exceed the requests and the
      retries spent, nor the requests and the initial budget. */
  lemma DownloadsBounded(budget: nat, es: seq<Event>, s: State)
    requires Runs(Initial(budget), es, s)
    ensures 0 <= s.retries <= budget && StartedOnce(s)
    ensures |s.started| <= |s.names| + (budget - s.retries) <= |s.names| + budget
  {
    assert Inv(Initial(budget));
    RunStarted(Initial(budget), es, s);
    RunStartsOnce(Initial(budget), es, s);
    RetriesOnlyShrink(Initial(budget), es, s);
  }

  lemma {:induction false} CompletionRetries(s: State, c: Completion, result: Outcome)
    ensures RunCompletion(s, c, result).retries <= s.retries
    decreases c
  {
    match c
    case Only(_) =>
    case Both(a, b) =>
      CompletionRetries(s, a, result);
      CompletionRetries(RunCompletion(s, a, result), b, result);
  }

  lemma {:induction false} RetriesOnlyShrink(s: State, es: seq<Event>, s': State)
    requires Runs(s, es, s')
    ensures s'.retries <= s.retries
    decreases |es|
  {
    if es != [] {
      if es[0].FileCallback? {
        var d := es[0].downloader;
        CompletionRetries(CompleteTask(s, d), s.tasks[s.slots[d]].completion, es[0].result);
      }
      RetriesOnlyShrink(Next(s, es[0]), es[1..], s');
    }
  }
}
