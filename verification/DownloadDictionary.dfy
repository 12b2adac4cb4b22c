/** `currentDownloadTask`: removal is by model name and not by task, so a removal
    left over from a finished task can drop a newer task. */
module DownloadDictionary {
  import opened ModelInfo
  import opened DownloadProtocol
  import opened DownloadLaws

  /** Every task that is downloading is the one kept under its model name; so no name
      has two of them. */
  ghost predicate Tracked(s: State) {
    forall t: nat :: t < |s.tasks| && s.tasks[t].status == Downloading ==>
      s.tasks[t].name in s.current && s.current[s.tasks[t].name] == t
  }

  lemma TrackedIsUnique(s: State, t: nat, t': nat)
    requires Tracked(s) && t < |s.tasks| && t' < |s.tasks|
    requires s.tasks[t].status == s.tasks[t'].status == Downloading && s.tasks[t].name == s.tasks[t'].name
    ensures t == t'
  {
    assert s.current[s.tasks[t].name] == t;
  }

  /** The step is a removal whose name has a task that is still downloading. */
  predicate DropsLiveTask(s: State, e: Event) {
    e == RunHead && s.queue != [] && s.queue[0].Remove? &&
    s.queue[0].name in s.current && s.current[s.queue[0].name] < |s.tasks| &&
    s.tasks[s.current[s.queue[0].name]].status == Downloading
  }

  lemma RegisterTracked(s: State, r: Request, info: RemoteModelInfo)
    requires Linked(s) && Tracked(s) && r in s.names
    ensures Tracked(RunRegister(s, r, info))
  {
    var name, s' := s.names[r], RunRegister(s, r, info);
    if CanMerge(s, name) {
      var t := s.current[name];
      assert TaskOk(s, t);
      forall k: nat | k < |s'.tasks| && s'.tasks[k].status == Downloading
        ensures s'.tasks[k].name in s'.current && s'.current[s'.tasks[k].name] == k
      {
        assert s.tasks[k].status == Downloading;
      }
    } else {
      var n := |s.tasks|;
      forall k: nat | k < |s'.tasks| && s'.tasks[k].status == Downloading
        ensures s'.tasks[k].name in s'.current && s'.current[s'.tasks[k].name] == k
      {
        if k < n {
          assert s'.tasks[k] == s.tasks[k];
          assert s.current[s.tasks[k].name] == k;
        }
      }
    }
  }

  /** Exactly the removal of a live task breaks the tracking. */
  lemma TrackedStep(s: State, e: Event)
    requires Inv(s) && Tracked(s) && Enabled(s, e)
    ensures Tracked(Next(s, e)) <==> !DropsLiveTask(s, e)
  {
    match e
    case NewRequest(_, _) =>
    case Reply(_, _) =>
    case RunHead =>
      var s' := s.(queue := s.queue[1..]);
      assert Tracked(s');
      if s.queue[0].Register? {
        QueuedNotInFlight(s, s.queue[0].request);
        SameLinks(s, s');
        RegisterTracked(s', s.queue[0].request, s.queue[0].info);
      } else {
        RemoveTracked(s, s.queue[0].name);
      }
    case FileCallback(d, result) =>
      assert InFlight(s, d);
      CompletionFrame(CompleteTask(s, d), s.tasks[s.slots[d]].completion, result);
      assert Tracked(CompleteTask(s, d));
  }

  lemma RemoveTracked(s: State, name: string)
    requires Linked(s) && Tracked(s)
    ensures Tracked(s.(current := s.current - {name})) <==>
            !(name in s.current && s.tasks[s.current[name]].status == Downloading)
  {
    var s' := s.(current := s.current - {name});
    if name in s.current && s.tasks[s.current[name]].status == Downloading {
      var t := s.current[name];
      assert s'.tasks[t].name == name;
    } else {
      forall t: nat | t < |s'.tasks| && s'.tasks[t].status == Downloading
        ensures s'.tasks[t].name in s'.current && s'.current[s'.tasks[t].name] == t
      {
        assert s.current[s.tasks[t].name] == t;
      }
    }
  }

  // ----- runs in which removals come before the next registration of their name

  /** No removal of the registered name is pending when a registration runs. */
  predicate RemovalsFirst(s: State, e: Event) {
    e == RunHead && s.queue != [] && s.queue[0].Register? ==> Remove(NameOf(s, s.queue[0].request)) !in s.queue
  }

  predicate RemovalsFirstRun(s: State, es: seq<Event>)
    decreases |es|
  {
    es == [] || (Enabled(s, es[0]) && RemovalsFirst(s, es[0]) && RemovalsFirstRun(Next(s, es[0]), es[1..]))
  }

  /** A pending removal does not name a live task. */
  ghost predicate RemovalsSafe(s: State) {
    forall n <- s.current :: Remove(n) in s.queue && s.current[n] < |s.tasks| ==>
      s.tasks[s.current[n]].status != Downloading
  }

  /** Finishing requests of one model only adds removals of that model. */
  lemma {:induction false} CompletionQueue(s: State, c: Completion, result: Outcome, name: string, n: string)
    requires AllNamed(c, s.names, name) && n != name
    ensures Remove(n) in RunCompletion(s, c, result).queue <==> Remove(n) in s.queue
    decreases c
  {
    match c
    case Only(r) =>
      assert Called(c, r) > 0;
    case Both(a, b) =>
      assert forall r :: Called(a, r) > 0 || Called(b, r) > 0 ==> Called(c, r) > 0;
      CompletionQueue(s, a, result, name, n);
      CompletionFrame(s, a, result);
      CompletionQueue(RunCompletion(s, a, result), b, result, name, n);
  }

  lemma SafeRegister(s: State, r: Request, info: RemoteModelInfo)
    requires Linked(s) && RemovalsSafe(s) && r in s.names && Remove(s.names[r]) !in s.queue
    ensures RemovalsSafe(RunRegister(s, r, info))
  {
    if CanMerge(s, s.names[r]) {
      assert TaskOk(s, s.current[s.names[r]]);
    }
  }

  lemma SafeCallback(s: State, d: Request, result: Outcome)
    requires Inv(s) && Tracked(s) && RemovalsSafe(s) && Enabled(s, FileCallback(d, result))
    ensures RemovalsSafe(Next(s, FileCallback(d, result)))
  {
    assert InFlight(s, d);
    var t := s.slots[d];
    assert TaskOk(s, t);
    var s1, c := CompleteTask(s, d), s.tasks[t].completion;
    var s' := RunCompletion(s1, c, result);
    CompletionFrame(s1, c, result);
    forall n | n in s'.current && Remove(n) in s'.queue && s'.current[n] < |s'.tasks|
      ensures s'.tasks[s'.current[n]].status != Downloading
    {
      if n != s.tasks[t].name {
        CompletionQueue(s1, c, result, s.tasks[t].name, n);
      }
    }
  }

  lemma SafeStep(s: State, e: Event)
    requires Inv(s) && Tracked(s) && RemovalsSafe(s) && Enabled(s, e) && RemovalsFirst(s, e)
    ensures RemovalsSafe(Next(s, e)) && !DropsLiveTask(s, e)
  {
    match e
    case NewRequest(_, _) =>
    case Reply(r, reply) =>
    case RunHead =>
      var s1 := s.(queue := s.queue[1..]);
      assert forall n :: Remove(n) in s.queue[1..] ==> Remove(n) in s.queue;
      assert s.queue[0] in s.queue;
      if s.queue[0].Register? {
        QueuedNotInFlight(s, s.queue[0].request);
        SameLinks(s, s1);
        SafeRegister(s1, s.queue[0].request, s.queue[0].info);
      }
    case FileCallback(d, result) =>
      SafeCallback(s, d, result);
  }

  /** In such runs each model name has at most one downloading task, and that is the
      dictionary's entry for the name. */
  lemma {:induction false} TrackedRun(s: State, es: seq<Event>, s': State)
    requires Inv(s) && Tracked(s) && RemovalsSafe(s)
    requires Runs(s, es, s') && RemovalsFirstRun(s, es)
    ensures Inv(s') && Tracked(s')
    decreases |es|
  {
    if es != [] {
      SafeStep(s, es[0]);
      TrackedStep(s, es[0]);
      StepKeepsInv(s, es[0]);
      TrackedRun(Next(s, es[0]), es[1..], s');
    }
  }

  // ----- what else the dictionary holds

  /** An entry whose task is complete waits for its removal, unless the retries are used up. */
  ghost predicate FinishedLeave(s: State) {
    forall n <- s.current :: FinishedLeaves(s, n)
  }

  predicate FinishedLeaves(s: State, n: string)
    requires n in s.current
  {
    s.current[n] < |s.tasks| && s.tasks[s.current[n]].status == Complete ==> Remove(n) in s.queue || s.retries <= 0
  }

  lemma {:induction false} CompletionGrows(s: State, c: Completion, result: Outcome, job: Job)
    ensures var s' := RunCompletion(s, c, result);
      (job in s.queue ==> job in s'.queue) && s'.retries <= s.retries
    decreases c
  {
    match c
    case Only(_) =>
    case Both(a, b) =>
      CompletionGrows(s, a, result, job);
      CompletionGrows(RunCompletion(s, a, result), b, result, job);
  }

  /** A callback queues a removal of its model, or it finds the retries used up. */
  lemma {:induction false} CompletionRemoves(s: State, c: Completion, result: Outcome, name: string)
    requires AllNamed(c, s.names, name)
    ensures var s' := RunCompletion(s, c, result); Remove(name) in s'.queue || s'.retries <= 0
    decreases c
  {
    match c
    case Only(r) =>
      assert Called(c, r) > 0;
    case Both(a, b) =>
      assert forall r :: Called(a, r) > 0 ==> Called(c, r) > 0;
      CompletionRemoves(s, a, result, name);
      CompletionGrows(RunCompletion(s, a, result), b, result, Remove(name));
  }

  lemma FinishedLeaveCallback(s: State, d: Request, result: Outcome)
    requires Inv(s) && FinishedLeave(s) && Enabled(s, FileCallback(d, result))
    ensures FinishedLeave(Next(s, FileCallback(d, result)))
  {
    assert InFlight(s, d);
    var t := s.slots[d];
    assert TaskOk(s, t);
    var s1, c := CompleteTask(s, d), s.tasks[t].completion;
    var s' := RunCompletion(s1, c, result);
    CompletionFrame(s1, c, result);
    CompletionRemoves(s1, c, result, s.tasks[t].name);
    forall n | n in s'.current ensures FinishedLeaves(s', n) {
      assert FinishedLeaves(s, n);
      CompletionGrows(s1, c, result, Remove(n));
    }
  }

  lemma FinishedLeaveRegister(s: State, r: Request, info: RemoteModelInfo)
    requires Linked(s) && FinishedLeave(s) && r in s.names
    ensures FinishedLeave(RunRegister(s, r, info))
  {
    var s' := RunRegister(s, r, info);
    if CanMerge(s, s.names[r]) {
      assert TaskOk(s, s.current[s.names[r]]);
    }
    forall n | n in s'.current ensures FinishedLeaves(s', n) {
      assert n in s.current ==> FinishedLeaves(s, n);
    }
  }

  lemma FinishedLeaveHead(s: State)
    requires Inv(s) && FinishedLeave(s) && s.queue != []
    ensures FinishedLeave(Next(s, RunHead))
  {
    var s1, job := s.(queue := s.queue[1..]), s.queue[0];
    if job.Register? {
      QueuedNotInFlight(s, job.request);
      SameLinks(s, s1);
      forall n | n in s1.current ensures FinishedLeaves(s1, n) {
        assert FinishedLeaves(s, n);
      }
      FinishedLeaveRegister(s1, job.request, job.info);
    } else {
      forall n | n in s1.current - {job.name} ensures FinishedLeaves(s1, n) {
        assert FinishedLeaves(s, n);
      }
    }
  }

  lemma FinishedLeaveStep(s: State, e: Event)
    requires Inv(s) && FinishedLeave(s) && Enabled(s, e)
    ensures FinishedLeave(Next(s, e))
  {
    match e
    case NewRequest(_, _) =>
      assert forall n <- s.current :: FinishedLeaves(s, n);
    case Reply(_, _) =>
      assert forall n <- s.current :: FinishedLeaves(s, n);
    case RunHead =>
      FinishedLeaveHead(s);
    case FileCallback(d, result) =>
      FinishedLeaveCallback(s, d, result);
  }

  /** In every run, whatever the order of removals: a task in the dictionary is downloading,
      or its removal is pending, or the retries are used up. */
  lemma {:induction false} FinishedLeaveRun(s: State, es: seq<Event>, s': State)
    requires Inv(s) && FinishedLeave(s) && Runs(s, es, s')
    ensures FinishedLeave(s') && Inv(s')
    ensures forall n <- s'.current ::
      s'.tasks[s'.current[n]].status == Downloading || Remove(n) in s'.queue || s'.retries <= 0
    decreases |es|
  {
    if es == [] {
      forall n | n in s'.current
        ensures s'.tasks[s'.current[n]].status == Downloading || Remove(n) in s'.queue || s'.retries <= 0
      {
        assert FinishedLeaves(s', n) && TaskOk(s', s'.current[n]);
      }
    } else {
      FinishedLeaveStep(s, es[0]);
      StepKeepsInv(s, es[0]);
      FinishedLeaveRun(Next(s, es[0]), es[1..], s');
    }
  }

  // ----- the hypothesis is needed

  ghost predicate Reachable(s: State) {
    exists es :: Runs(Initial(1), es, s)
  }

  lemma ReachableNext(s: State, e: Event)
    requires Reachable(s) && Enabled(s, e)
    ensures Reachable(Next(s, e))
  {
    var es :| Runs(Initial(1), es, s);
    RunsOneMore(Initial(1), es, s, e);
  }

  lemma ReachableInv(s: State)
    requires Reachable(s)
    ensures Inv(s)
  {
    var es :| Runs(Initial(1), es, s);
    assert Inv(Initial(1));
    RunKeepsInv(Initial(1), es, s);
  }

  function Downloaded(info: RemoteModelInfo, r: Request, status: Status): Task {
    Task(info, "m", r, status, Only(r))
  }

  const THREE: map<Request, string> := map[0 := "m", 1 := "m", 2 := "m"]

  /** Three requests for one model. */
  lemma ThreeRequests() returns (s: State)
    ensures Reachable(s) && s.names == THREE && s.awaiting == multiset{0, 1, 2} && s.queue == []
    ensures s.current == map[] && s.tasks == [] && s.slots == map[] && s.outstanding == {}
  {
    s := Initial(1);
    assert Runs(s, [], s);
    ReachableNext(s, NewRequest(0, "m"));
    s := Next(s, NewRequest(0, "m"));
    ReachableNext(s, NewRequest(1, "m"));
    s := Next(s, NewRequest(1, "m"));
    ReachableNext(s, NewRequest(2, "m"));
    s := Next(s, NewRequest(2, "m"));
  }

  /** Nothing but the queue and the waiting requests changes. */
  ghost predicate SameTasks(s: State, s': State) {
    && s'.names == s.names && s'.current == s.current && s'.tasks == s.tasks
    && s'.slots == s.slots && s'.outstanding == s.outstanding
  }

  lemma ReplyStep(s: State, r: Request, info: RemoteModelInfo) returns (s': State)
    requires Reachable(s) && r in s.awaiting && s.queue == []
    ensures Reachable(s') && SameTasks(s, s')
    ensures s'.awaiting == s.awaiting - multiset{r} && s'.queue == [Register(r, info)]
  {
    ReachableNext(s, Reply(r, NewInfo(info)));
    s' := Next(s, Reply(r, NewInfo(info)));
    assert [] + [Register(r, info)] == [Register(r, info)];
  }

  /** A registration that finds no task to merge with starts a download of its own. */
  lemma RegisterStarts(s: State, r: Request, info: RemoteModelInfo)
    requires s.names == THREE && r < 3 && !CanMerge(s, "m")
    ensures var s' := RunRegister(s, r, info);
      && s'.names == THREE && s'.awaiting == s.awaiting && s'.queue == s.queue
      && s'.tasks == s.tasks + [Downloaded(info, r, Downloading)] && s'.current == s.current["m" := |s.tasks|]
      && s'.slots == s.slots[r := |s.tasks|] && s'.outstanding == s.outstanding + {r}
  {
    var s' := RunRegister(s, r, info);
    assert NameOf(s, r) == "m";
    assert s'.tasks == s.tasks + [Downloaded(info, r, Downloading)];
  }

  /** The registration at the head runs. */
  lemma StartStep(s: State, r: Request, info: RemoteModelInfo) returns (s': State)
    requires Reachable(s) && s.names == THREE && r < 3 && !CanMerge(s, "m")
    requires s.queue != [] && s.queue[0] == Register(r, info)
    ensures Reachable(s') && s'.names == THREE && s'.awaiting == s.awaiting && s'.queue == s.queue[1..]
    ensures s'.tasks == s.tasks + [Downloaded(info, r, Downloading)] && s'.current == s.current["m" := |s.tasks|]
    ensures s'.slots == s.slots[r := |s.tasks|] && s'.outstanding == s.outstanding + {r}
  {
    ReachableNext(s, RunHead);
    s' := Next(s, RunHead);
    RegisterStarts(s.(queue := s.queue[1..]), r, info);
  }

  /** The first task finishes while the second request's registration is queued. */
  lemma FinishStep(s: State, info: RemoteModelInfo, model: CustomModel) returns (s': State)
    requires Reachable(s) && s.names == THREE && s.queue == [Register(1, info)]
    requires s.tasks == [Downloaded(info, 0, Downloading)] && s.slots == map[0 := 0] && s.outstanding == {0}
    ensures Reachable(s') && s'.names == THREE && s'.awaiting == s.awaiting && s'.current == s.current
    ensures s'.queue == [Register(1, info), Remove("m")] && s'.tasks == [Downloaded(info, 0, Complete)]
  {
    var e := FileCallback(0, Success(model));
    ReachableNext(s, e);
    s' := Next(s, e);
    assert s'.tasks == [Downloaded(info, 0, Complete)];
    assert NameOf(s, 0) == "m";
    assert [Register(1, info)] + [Remove("m")] == [Register(1, info), Remove("m")];
  }

  lemma FirstDownloads(info: RemoteModelInfo) returns (s: State)
    ensures Reachable(s) && s.names == THREE && s.awaiting == multiset{1, 2} && s.queue == []
    ensures s.current == map["m" := 0] && s.tasks == [Downloaded(info, 0, Downloading)]
    ensures s.slots == map[0 := 0] && s.outstanding == {0}
  {
    s := ThreeRequests();
    s := ReplyStep(s, 0, info);
    assert s.awaiting == multiset{1, 2};
    s := StartStep(s, 0, info);
  }

  /** The first task is complete, the second registration and then its removal are queued. */
  lemma FirstFinishes(info: RemoteModelInfo, model: CustomModel) returns (s: State)
    ensures Reachable(s) && s.names == THREE && s.awaiting == multiset{2}
    ensures s.queue == [Register(1, info), Remove("m")]
    ensures s.current == map["m" := 0] && s.tasks == [Downloaded(info, 0, Complete)]
  {
    s := FirstDownloads(info);
    s := ReplyStep(s, 1, info);
    assert s.awaiting == multiset{2};
    s := FinishStep(s, info, model);
  }

  /** The second registration runs before the removal of the first task. */
  lemma SecondDownloads(info: RemoteModelInfo, model: CustomModel) returns (s: State)
    ensures Reachable(s) && s.names == THREE && s.awaiting == multiset{2} && s.queue == [Remove("m")]
    ensures s.current == map["m" := 1]
    ensures |s.tasks| == 2 && s.tasks[1] == Downloaded(info, 1, Downloading)
  {
    s := FirstFinishes(info, model);
    s := StartStep(s, 1, info);
  }

  /** The removal forgets the second task. */
  lemma SecondForgotten(info: RemoteModelInfo, model: CustomModel) returns (s: State)
    ensures Reachable(s) && s.names == THREE && s.awaiting == multiset{2} && s.queue == [] && s.current == map[]
    ensures |s.tasks| == 2 && s.tasks[1] == Downloaded(info, 1, Downloading)
  {
    s := SecondDownloads(info, model);
    ReachableNext(s, RunHead);
    s := Next(s, RunHead);
  }

  /** The third registration starts again. */
  lemma ThirdDownloads(info: RemoteModelInfo, model: CustomModel) returns (s: State)
    ensures Reachable(s) && "m" in s.current && s.current["m"] == 2 && |s.tasks| == 3
    ensures s.tasks[1] == Downloaded(info, 1, Downloading) && s.tasks[2] == Downloaded(info, 2, Downloading)
  {
    s := SecondForgotten(info, model);
    s := ReplyStep(s, 2, info);
    s := StartStep(s, 2, info);
  }

  /** A registration that was queued before the removal of a finished task starts a
      download that the removal then forgets, and the next registration of the
      name starts another download beside it. */
  lemma RemovalCanForgetTask(info: RemoteModelInfo, model: CustomModel)
    ensures exists s ::
      && Reachable(s) && Inv(s) && !Tracked(s)
      && |s.tasks| == 3 && s.tasks[1].name == s.tasks[2].name && s.tasks[1].status == s.tasks[2].status == Downloading
  {
    var s := ThirdDownloads(info, model);
    ReachableInv(s);
    assert s.current[s.tasks[1].name] == 2;
  }
}
