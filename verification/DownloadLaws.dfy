/** What every run of the download protocol keeps. */
module DownloadLaws {
  import opened ModelInfo
  import opened DownloadProtocol

  // ----- the invariant

  function First(c: Completion): Request {
    match c
    case Only(r) => r
    case Both(a, _) => First(a)
  }

  lemma {:induction false} FirstCalled(c: Completion)
    ensures Called(c, First(c)) > 0 && Calls(c)[0] == First(c)
  {
    match c
    case Only(_) =>
    case Both(a, _) =>
      FirstCalled(a);
  }

  /** All requests of a task ask for the task's model. */
  ghost predicate AllNamed(c: Completion, names: map<Request, string>, name: string) {
    forall r :: Called(c, r) > 0 ==> r in names && names[r] == name
  }

  /** A file downloader with a download under way still has in its slot the task
      that started the download. */
  predicate InFlight(s: State, d: Request) {
    && d in s.slots && s.slots[d] < |s.tasks|
    && s.tasks[s.slots[d]].status == Downloading && s.tasks[s.slots[d]].downloader == d
  }

  ghost predicate TaskOk(s: State, t: nat)
    requires t < |s.tasks|
  {
    var task := s.tasks[t];
    && task.status != Ready
    && (task.status == Downloading ==>
          task.downloader in s.outstanding && task.downloader in s.slots && s.slots[task.downloader] == t)
    && First(task.completion) == task.downloader
    && AllNamed(task.completion, s.names, task.name)
  }

  ghost predicate Linked(s: State) {
    && (forall d <- s.outstanding :: InFlight(s, d))
    && (forall t: nat :: t < |s.tasks| ==> TaskOk(s, t))
    && (forall n <- s.current :: s.current[n] < |s.tasks| && s.tasks[s.current[n]].name == n)
  }

  /** Each request that was issued is in exactly one place, and nothing else is anywhere. */
  ghost predicate OnePlace(s: State) {
    forall r: Request :: Places(s, r) == Bit(r in s.names)
  }

  ghost predicate Inv(s: State) {
    Linked(s) && OnePlace(s)
  }

  /** A request at the head of the queue holds no download of its own. */
  lemma QueuedNotInFlight(s: State, r: Request)
    requires Inv(s) && s.queue != [] && s.queue[0].Register? && s.queue[0].request == r
    ensures r in s.names && r !in s.outstanding
  {
    assert Queued(s.queue, r) > 0;
    assert Places(s, r) == Bit(r in s.names);
    if r in s.outstanding {
      var t := s.slots[r];
      assert InFlight(s, r) && TaskOk(s, t);
      FirstCalled(s.tasks[t].completion);
      InTasksHas(s.tasks, t, r);
      assert false;
    }
  }

  lemma {:induction false} CompletionFrame(s: State, c: Completion, result: Outcome)
    ensures var s' := RunCompletion(s, c, result);
      && s'.names == s.names && s'.current == s.current && s'.tasks == s.tasks
      && s'.slots == s.slots && s'.outstanding == s.outstanding && s'.started == s.started
    decreases c
  {
    match c
    case Only(_) =>
    case Both(a, b) =>
      CompletionFrame(s, a, result);
      CompletionFrame(RunCompletion(s, a, result), b, result);
  }

  lemma MergeLinked(s: State, r: Request)
    requires Linked(s) && r in s.names && CanMerge(s, s.names[r])
    ensures var t := s.current[s.names[r]];
      Linked(s.(tasks := s.tasks[t := s.tasks[t].(completion := Both(s.tasks[t].completion, Only(r)))]))
  {
    var t := s.current[s.names[r]];
    var task := s.tasks[t];
    var s' := s.(tasks := s.tasks[t := task.(completion := Both(task.completion, Only(r)))]);
    assert TaskOk(s, t);
    forall k: nat | k < |s'.tasks| ensures TaskOk(s', k) {
      assert TaskOk(s, k);
    }
    forall d | d in s'.outstanding ensures InFlight(s', d) {
      assert InFlight(s, d);
    }
  }

  lemma StartLinked(s: State, r: Request, info: RemoteModelInfo)
    requires Linked(s) && r in s.names && r !in s.outstanding && !CanMerge(s, s.names[r])
    ensures Linked(RunRegister(s, r, info))
  {
    var s' := RunRegister(s, r, info);
    var n := |s.tasks|;
    assert s'.tasks == s.tasks + [Task(info, s.names[r], r, Downloading, Only(r))];
    forall k: nat | k < |s'.tasks| ensures TaskOk(s', k) {
      if k < n {
        assert TaskOk(s, k);
      }
    }
    forall d | d in s'.outstanding ensures InFlight(s', d) {
      if d != r {
        assert InFlight(s, d);
      }
    }
  }

  lemma CompleteLinked(s: State, d: Request)
    requires Linked(s) && d in s.outstanding
    ensures InFlight(s, d) && Linked(CompleteTask(s, d))
  {
    assert InFlight(s, d);
    var s' := CompleteTask(s, d);
    forall k: nat | k < |s'.tasks| ensures TaskOk(s', k) {
      assert TaskOk(s, k);
    }
    forall x | x in s'.outstanding ensures InFlight(s', x) {
      assert InFlight(s, x);
    }
  }

  lemma RunHeadLinked(s: State)
    requires Inv(s) && s.queue != []
    ensures Linked(Next(s, RunHead))
  {
    var s' := s.(queue := s.queue[1..]);
    SameLinks(s, s');
    if s.queue[0].Register? {
      var r := s.queue[0].request;
      QueuedNotInFlight(s, r);
      if CanMerge(s', s'.names[r]) {
        assert TaskOk(s', s'.current[s'.names[r]]);
        MergeLinked(s', r);
      } else {
        StartLinked(s', r, s.queue[0].info);
      }
    } else {
      RemoveLinked(s', s.queue[0].name);
    }
  }

  lemma StepLinked(s: State, e: Event)
    requires Inv(s) && Enabled(s, e)
    ensures Linked(Next(s, e))
  {
    match e
    case NewRequest(r, name) =>
      NewRequestLinked(s, r, name);
    case Reply(r, reply) =>
      SameLinks(s, Next(s, e));
    case RunHead =>
      RunHeadLinked(s);
    case FileCallback(d, result) =>
      CompleteLinked(s, d);
      CompletionFrame(CompleteTask(s, d), s.tasks[s.slots[d]].completion, result);
      SameLinks(CompleteTask(s, d), Next(s, e));
  }

  lemma NewRequestLinked(s: State, r: Request, name: string)
    requires Inv(s) && Enabled(s, NewRequest(r, name))
    ensures Linked(Next(s, NewRequest(r, name)))
  {
    var s' := Next(s, NewRequest(r, name));
    forall k: nat | k < |s'.tasks| ensures TaskOk(s', k) {
      assert TaskOk(s, k);
    }
    assert forall d <- s.outstanding :: InFlight(s, d) ==> InFlight(s', d);
  }

  lemma SameLinks(s: State, s': State)
    requires Linked(s) && s'.names == s.names && s'.current == s.current && s'.tasks == s.tasks
    requires s'.slots == s.slots && s'.outstanding == s.outstanding
    ensures Linked(s')
  {
    forall k: nat | k < |s'.tasks| ensures TaskOk(s', k) {
      assert TaskOk(s, k);
    }
    forall d | d in s'.outstanding ensures InFlight(s', d) {
      assert InFlight(s, d);
    }
  }

  lemma RemoveLinked(s: State, name: string)
    requires Linked(s)
    ensures Linked(s.(current := s.current - {name}))
  {
    var s' := s.(current := s.current - {name});
    forall k: nat | k < |s'.tasks| ensures TaskOk(s', k) {
      assert TaskOk(s, k);
    }
    forall d | d in s'.outstanding ensures InFlight(s', d) {
      assert InFlight(s, d);
    }
  }

  lemma {:induction false} CompletionKeepsNames(s: State, e: Event)
    requires Enabled(s, e)
    ensures Next(s, e).names == if e.NewRequest? then s.names[e.request := e.name] else s.names
  {
    if e.FileCallback? {
      CompletionFrame(CompleteTask(s, e.downloader), s.tasks[s.slots[e.downloader]].completion, e.result);
    }
  }

  /** Every step keeps each request in exactly one place. */
  lemma StepKeepsInv(s: State, e: Event)
    requires Inv(s) && Enabled(s, e)
    ensures Inv(Next(s, e))
  {
    StepLinked(s, e);
    CompletionKeepsNames(s, e);
    forall r: Request ensures Places(Next(s, e), r) == Bit(r in Next(s, e).names) {
      if e.FileCallback? {
        assert InFlight(s, e.downloader);
      }
      StepPlaces(s, e, r);
    }
  }

  /** For every interleaving: no completion is lost and none is delivered twice. */
  lemma {:induction false} RunKeepsInv(s: State, es: seq<Event>, s': State)
    requires Inv(s) && Runs(s, es, s')
    ensures Inv(s')
    decreases |es|
  {
    if es != [] {
      StepKeepsInv(s, es[0]);
      RunKeepsInv(Next(s, es[0]), es[1..], s');
    }
  }

  lemma DeliveredAtMostOnce(budget: int, es: seq<Event>, s: State, r: Request)
    requires Runs(Initial(budget), es, s)
    ensures Deliveries(s.delivered, r) <= 1
    ensures Deliveries(s.delivered, r) == 1 ==>
      r in s.names && s.awaiting[r] == Queued(s.queue, r) == InTasks(s.tasks, r) == 0
    ensures r in s.names && Deliveries(s.delivered, r) == 0 ==>
      s.awaiting[r] + Queued(s.queue, r) + InTasks(s.tasks, r) == 1
  {
    assert Inv(Initial(budget));
    RunKeepsInv(Initial(budget), es, s);
    assert Places(s, r) == Bit(r in s.names);
  }

  // ----- downloads are never mixed up

  /** A download that is under way keeps its completion slot until its own callback,
      and a download only starts on a downloader that has none under way. */
  lemma SlotKept(s: State, e: Event, d: Request)
    requires Inv(s) && Enabled(s, e)
    ensures var s' := Next(s, e);
      && (d in s.outstanding && !(e.FileCallback? && e.downloader == d) ==>
            d in s'.outstanding && d in s.slots && d in s'.slots && s'.slots[d] == s.slots[d])
      && (d !in s.outstanding && d in s'.outstanding ==> e == RunHead && d in s'.slots && s'.slots[d] == |s.tasks|)
  {
    assert d in s.outstanding ==> InFlight(s, d);
    match e
    case NewRequest(_, _) =>
    case Reply(_, _) =>
    case RunHead =>
      if s.queue[0].Register? {
        var r := s.queue[0].request;
        QueuedNotInFlight(s, r);
        if CanMerge(s, s.names[r]) {
          assert TaskOk(s, s.current[s.names[r]]);
        }
      }
    case FileCallback(x, result) =>
      CompletionFrame(CompleteTask(s, x), s.tasks[s.slots[x]].completion, result);
  }

  function Rank(st: Status): nat {
    match st
    case Ready => 0
    case Downloading => 1
    case Complete => 2
  }

  /** Tasks are never dropped, keep what they are for, only move from ready over
      downloading to complete, and get requests only at the end. */
  lemma TasksOnlyAdvance(s: State, e: Event, t: nat)
    requires Inv(s) && Enabled(s, e) && t < |s.tasks|
    ensures var s' := Next(s, e);
      && t < |s'.tasks|
      && (s'.tasks[t].info, s'.tasks[t].name, s'.tasks[t].downloader) ==
        (s.tasks[t].info, s.tasks[t].name, s.tasks[t].downloader)
      && Rank(s.tasks[t].status) <= Rank(s'.tasks[t].status)
      && Calls(s.tasks[t].completion) <= Calls(s'.tasks[t].completion)
      && (s.tasks[t].status == Complete ==> s'.tasks[t] == s.tasks[t])
  {
    match e
    case NewRequest(_, _) =>
    case Reply(_, _) =>
    case RunHead =>
      if s.queue[0].Register? {
        var r := s.queue[0].request;
        QueuedNotInFlight(s, r);
        if CanMerge(s, s.names[r]) {
          assert TaskOk(s, s.current[s.names[r]]);
        }
      }
    case FileCallback(d, result) =>
      assert InFlight(s, d);
      CompletionFrame(CompleteTask(s, d), s.tasks[s.slots[d]].completion, result);
  }

  // ----- what a callback does: the closures are a first-in first-out list

  function FinishAll(s: State, rs: seq<Request>, result: Outcome): State
    decreases |rs|
  {
    if rs == [] then s else FinishAll(Finish(s, rs[0], result), rs[1..], result)
  }

  lemma {:induction false} FinishAllConcat(s: State, a: seq<Request>, b: seq<Request>, result: Outcome)
    ensures FinishAll(s, a + b, result) == FinishAll(FinishAll(s, a, result), b, result)
    decreases |a|
  {
    if a == [] {
      assert a + b == b;
    } else {
      assert (a + b)[1..] == a[1..] + b;
      FinishAllConcat(Finish(s, a[0], result), a[1..], b, result);
    }
  }

  lemma {:induction false} CompletionIsList(s: State, c: Completion, result: Outcome)
    ensures RunCompletion(s, c, result) == FinishAll(s, Calls(c), result)
    decreases c
  {
    match c
    case Only(r) =>
    case Both(a, b) =>
      CompletionIsList(s, a, result);
      CompletionIsList(RunCompletion(s, a, result), b, result);
      FinishAllConcat(s, Calls(a), Calls(b), result);
  }

  function AllGet(rs: seq<Request>, o: Outcome): (ds: seq<(Request, Outcome)>)
    ensures |ds| == |rs| && forall k :: 0 <= k < |rs| ==> ds[k] == (rs[k], o)
  {
    seq(|rs|, k requires 0 <= k < |rs| => (rs[k], o))
  }

  function RemovalOf(names: map<Request, string>, r: Request): Job {
    Remove(if r in names then names[r] else "")
  }

  /** One removal per request. */
  function Removals(names: map<Request, string>, rs: seq<Request>): seq<Job> {
    if rs == [] then [] else [RemovalOf(names, rs[0])] + Removals(names, rs[1..])
  }

  lemma RemoveFirst(before: seq<Job>, names: map<Request, string>, rs: seq<Request>)
    requires rs != []
    ensures before + [RemovalOf(names, rs[0])] + Removals(names, rs[1..]) == before + Removals(names, rs)
  {
  }

  /** How many of `n` requests the retry budget covers. */
  function Covered(retries: int, n: nat): (m: nat)
    ensures m <= n
  {
    if retries <= 0 then 0 else if retries < n then retries else n
  }

  lemma {:induction false} FinishAllDelivers(s: State, rs: seq<Request>, result: Outcome)
    requires result != Failure(EXPIRED_DOWNLOAD_URL)
    ensures var s' := FinishAll(s, rs, result);
      && s'.delivered == s.delivered + AllGet(rs, result) && s'.queue == s.queue + Removals(s.names, rs)
      && s'.awaiting == s.awaiting && s'.retries == s.retries
    decreases |rs|
  {
    if rs != [] {
      FinishAllDelivers(Finish(s, rs[0], result), rs[1..], result);
      GetFirst(s.delivered, rs, result);
      RemoveFirst(s.queue, s.names, rs);
    }
  }

  /** `s'` is `s` after an expired download of the requests `rs`. */
  ghost predicate Expired(s: State, rs: seq<Request>, s': State) {
    var m := Covered(s.retries, |rs|);
    && s'.delivered == s.delivered + AllGet(rs[m..], Failure(EXPIRED_MODEL_INFO))
    && s'.awaiting == s.awaiting + multiset(rs[..m])
    && s'.retries == s.retries - m
    && s'.queue == s.queue + Removals(s.names, rs[..m])
  }

  lemma ExpiredFirst(s: State, rs: seq<Request>, s': State)
    requires rs != [] && Expired(Finish(s, rs[0], Failure(EXPIRED_DOWNLOAD_URL)), rs[1..], s')
    ensures Expired(s, rs, s')
  {
    if s.retries > 0 {
      CoveredFirst(s, rs, s');
    } else {
      FailedFirst(s, rs, s');
    }
  }

  lemma CoveredFirst(s: State, rs: seq<Request>, s': State)
    requires rs != [] && s.retries > 0
    requires var retried := s.(retries := s.retries - 1, awaiting := s.awaiting + multiset{rs[0]});
      Expired(QueueRemoval(retried, rs[0]), rs[1..], s')
    ensures Expired(s, rs, s')
  {
    var m := Covered(s.retries, |rs|);
    SplitFirst(rs, m);
    RemoveFirst(s.queue, s.names, rs[..m]);
    assert rs[..m][1..] == rs[1..][..m - 1];
  }

  lemma FailedFirst(s: State, rs: seq<Request>, s': State)
    requires rs != [] && s.retries <= 0
    requires Expired(Deliver(s, rs[0], Failure(EXPIRED_MODEL_INFO)), rs[1..], s')
    ensures Expired(s, rs, s')
  {
    GetFirst(s.delivered, rs, Failure(EXPIRED_MODEL_INFO));
    assert rs[0..] == rs && rs[1..][0..] == rs[1..] && rs[..0] == rs[1..][..0] == [];
  }

  lemma SplitFirst(rs: seq<Request>, m: nat)
    requires 0 < m <= |rs|
    ensures multiset(rs[..m]) == multiset{rs[0]} + multiset(rs[1..][..m - 1]) && rs[m..] == rs[1..][m - 1..]
  {
    assert rs[..m] == [rs[0]] + rs[1..][..m - 1];
  }

  lemma GetFirst(before: seq<(Request, Outcome)>, rs: seq<Request>, o: Outcome)
    requires rs != []
    ensures before + [(rs[0], o)] + AllGet(rs[1..], o) == before + AllGet(rs, o)
  {
    assert AllGet(rs, o) == [(rs[0], o)] + AllGet(rs[1..], o);
  }

  lemma {:induction false} FinishAllRetries(s: State, rs: seq<Request>)
    ensures Expired(s, rs, FinishAll(s, rs, Failure(EXPIRED_DOWNLOAD_URL)))
    decreases |rs|
  {
    if rs != [] {
      FinishAllRetries(Finish(s, rs[0], Failure(EXPIRED_DOWNLOAD_URL)), rs[1..]);
      ExpiredFirst(s, rs, FinishAll(s, rs, Failure(EXPIRED_DOWNLOAD_URL)));
    }
  }

  /** Every request of the task gets the task's result, once and in merge order.
      When the URL has expired the first of them go back for new model info, as
      many as the budget covers, and the others fail in merge order.  One removal
      is queued for each request but those that fail for want of retries. */
  lemma CallbackDelivers(s: State, d: Request, result: Outcome)
    requires Inv(s) && Enabled(s, FileCallback(d, result))
    ensures var s', rs := Next(s, FileCallback(d, result)), Calls(s.tasks[s.slots[d]].completion);
      && s'.tasks == s.tasks[s.slots[d] := s.tasks[s.slots[d]].(status := Complete)]
      && if result != Failure(EXPIRED_DOWNLOAD_URL) then
           && s'.delivered == s.delivered + AllGet(rs, result) && s'.queue == s.queue + Removals(s.names, rs)
           && s'.awaiting == s.awaiting && s'.retries == s.retries
         else Expired(s, rs, s')
  {
    assert InFlight(s, d);
    var c := s.tasks[s.slots[d]].completion;
    CompletionFrame(CompleteTask(s, d), c, result);
    CompletionIsList(CompleteTask(s, d), c, result);
    if result != Failure(EXPIRED_DOWNLOAD_URL) {
      FinishAllDelivers(CompleteTask(s, d), Calls(c), result);
    } else {
      FinishAllRetries(CompleteTask(s, d), Calls(c));
    }
  }
}
