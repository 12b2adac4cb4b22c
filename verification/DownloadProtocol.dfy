/** The model download protocol as a state machine.

    A request waits for a model info reply, queues a registration block on the
    serial queue, joins a download task (its own or one that is already under
    way), and is delivered by the task's file callback, which may send it back to
    the start while the shared retry budget lasts.  Each serial-queue block and
    each callback is one atomic step; replies and callbacks come in any order. */
module DownloadProtocol {
  import opened Wrappers
  import opened ModelInfo

  type Request = nat

  datatype Status = Ready | Downloading | Complete

  /** The completion closure of a task: one request's handler, or an earlier
      closure followed by a merged one. */
  datatype Completion = Only(request: Request) | Both(first: Completion, second: Completion)

  function Calls(c: Completion): (rs: seq<Request>)
    ensures rs != []
  {
    match c
    case Only(r) => [r]
    case Both(a, b) => Calls(a) + Calls(b)
  }

  datatype Task = Task(info: RemoteModelInfo, name: string, downloader: Request, status: Status, completion: Completion)

  /** Blocks on `taskSerialQueue` */
  datatype Job = Register(request: Request, info: RemoteModelInfo) | Remove(name: string)

  datatype State = State(
    names: map<Request, string>,          // every request issued so far, with its model name
    awaiting: multiset<Request>,          // waiting for a model info reply
    queue: seq<Job>,
    current: map<string, nat>,            // currentDownloadTask, as indices into tasks
    tasks: seq<Task>,                     // every task created so far
    slots: map<Request, nat>,             // the completion slot of each file downloader
    outstanding: set<Request>,            // file downloaders with a download under way
    started: seq<nat>,                    // the task of each file download that was started
    retries: int,                         // numberOfRetries
    delivered: seq<(Request, Outcome)>)

  datatype InfoReply =
    | NewInfo(info: RemoteModelInfo)
    | NotModified(local: Option<CustomModel>)
    | InfoFailed(error: DownloadError)

  datatype Event =
    | NewRequest(request: Request, name: string)
    | Reply(request: Request, reply: InfoReply)
    | RunHead
    | FileCallback(downloader: Request, result: Outcome)

  function Initial(retries: int): State {
    State(map[], multiset{}, [], map[], [], map[], {}, [], retries, [])
  }

  predicate Enabled(s: State, e: Event) {
    match e
    case NewRequest(r, _) => r !in s.names
    case Reply(r, _) => r in s.awaiting
    case RunHead => s.queue != []
    case FileCallback(d, _) => d in s.outstanding && d in s.slots && s.slots[d] < |s.tasks|
  }

  function Deliver(s: State, r: Request, o: Outcome): State {
    s.(delivered := s.delivered + [(r, o)])
  }

  function NameOf(s: State, r: Request): string {
    if r in s.names then s.names[r] else ""
  }

  /** `ModelDownloadTask.resume` */
  function Resume(s: State, t: nat): State
    requires t < |s.tasks|
  {
    var task := s.tasks[t];
    if task.status == Downloading then s
    else s.(tasks := s.tasks[t := task.(status := Downloading)],
            slots := s.slots[task.downloader := t],
            outstanding := s.outstanding + {task.downloader},
            started := s.started + [t])
  }

  /** `canMergeRequests` for the task kept under a name */
  predicate CanMerge(s: State, name: string) {
    name in s.current && s.current[name] < |s.tasks| && s.tasks[s.current[name]].status != Complete
  }

  /** The registration block of a request. */
  function RunRegister(s: State, r: Request, info: RemoteModelInfo): State {
    var name := NameOf(s, r);
    if CanMerge(s, name) then
      var t := s.current[name];
      var merged := s.tasks[t].(completion := Both(s.tasks[t].completion, Only(r)));
      var s' := s.(tasks := s.tasks[t := merged]);
      if merged.status == Ready then Resume(s', t) else s'
    else
      var t := |s.tasks|;
      Resume(s.(tasks := s.tasks + [Task(info, name, r, Ready, Only(r))], current := s.current[name := t]), t)
  }

  function RunJob(s: State, job: Job): State {
    match job
    case Register(r, info) => RunRegister(s, r, info)
    case Remove(name) => s.(current := s.current - {name})
  }

  /** `taskCompletion` of one request: deliver or retry, then queue a removal.  When the
      retries are used up it returns early, and no removal is queued. */
  function Finish(s: State, r: Request, result: Outcome): State {
    if result != Failure(EXPIRED_DOWNLOAD_URL) then QueueRemoval(Deliver(s, r, result), r)
    else if s.retries > 0 then QueueRemoval(s.(retries := s.retries - 1, awaiting := s.awaiting + multiset{r}), r)
    else Deliver(s, r, Failure(EXPIRED_MODEL_INFO))
  }

  function QueueRemoval(s: State, r: Request): State {
    s.(queue := s.queue + [Remove(NameOf(s, r))])
  }

  /** Calling the nested closure. */
  function RunCompletion(s: State, c: Completion, result: Outcome): State
    decreases c
  {
    match c
    case Only(r) => Finish(s, r, result)
    case Both(a, b) => RunCompletion(RunCompletion(s, a, result), b, result)
  }

  function CompleteTask(s: State, d: Request): State
    requires d in s.slots && s.slots[d] < |s.tasks|
  {
    var t := s.slots[d];
    s.(tasks := s.tasks[t := s.tasks[t].(status := Complete)], outstanding := s.outstanding - {d})
  }

  function Next(s: State, e: Event): State
    requires Enabled(s, e)
  {
    match e
    case NewRequest(r, name) => s.(names := s.names[r := name], awaiting := s.awaiting + multiset{r})
    case Reply(r, reply) =>
      var s' := s.(awaiting := s.awaiting - multiset{r});
      (match reply
       case NewInfo(info) => s'.(queue := s'.queue + [Register(r, info)])
       case NotModified(Some(model)) => Deliver(s', r, Success(model))
       case NotModified(None) => Deliver(s', r, Failure(DELETED_LOCAL_MODEL))
       case InfoFailed(error) => Deliver(s', r, Failure(error)))
    case RunHead => RunJob(s.(queue := s.queue[1..]), s.queue[0])
    case FileCallback(d, result) =>
      RunCompletion(CompleteTask(s, d), s.tasks[s.slots[d]].completion, result)
  }

  /** `s'` is reached from `s` by the events, each possible when it happens. */
  predicate Runs(s: State, es: seq<Event>, s': State)
    decreases |es|
  {
    if es == [] then s == s' else Enabled(s, es[0]) && Runs(Next(s, es[0]), es[1..], s')
  }

  /** The events can happen one after the other. */
  predicate Possible(s: State, es: seq<Event>)
    decreases |es|
  {
    es == [] || (Enabled(s, es[0]) && Possible(Next(s, es[0]), es[1..]))
  }

  function After(s: State, es: seq<Event>): State
    requires Possible(s, es)
    decreases |es|
  {
    if es == [] then s else After(Next(s, es[0]), es[1..])
  }

  lemma {:induction false} AfterRuns(s: State, es: seq<Event>)
    requires Possible(s, es)
    ensures Runs(s, es, After(s, es))
    decreases |es|
  {
    if es != [] {
      AfterRuns(Next(s, es[0]), es[1..]);
    }
  }

  lemma {:induction false} RunsOneMore(s: State, es: seq<Event>, mid: State, e: Event)
    requires Runs(s, es, mid) && Enabled(mid, e)
    ensures Runs(s, es + [e], Next(mid, e))
    decreases |es|
  {
    if es != [] {
      assert (es + [e])[1..] == es[1..] + [e];
      RunsOneMore(Next(s, es[0]), es[1..], mid, e);
    }
  }

  // ----- where a request is

  function Bit(b: bool): nat {
    if b then 1 else 0
  }

  function Queued(queue: seq<Job>, r: Request): nat {
    if queue == [] then 0 else Bit(queue[0].Register? && queue[0].request == r) + Queued(queue[1..], r)
  }

  function Called(c: Completion, r: Request): nat {
    match c
    case Only(q) => Bit(q == r)
    case Both(a, b) => Called(a, r) + Called(b, r)
  }

  function Held(t: Task, r: Request): nat {
    if t.status == Complete then 0 else Called(t.completion, r)
  }

  function InTasks(tasks: seq<Task>, r: Request): nat {
    if tasks == [] then 0 else InTasks(tasks[..|tasks| - 1], r) + Held(tasks[|tasks| - 1], r)
  }

  function Deliveries(ds: seq<(Request, Outcome)>, r: Request): nat {
    if ds == [] then 0 else Deliveries(ds[..|ds| - 1], r) + Bit(ds[|ds| - 1].0 == r)
  }

  /** In how many places a request is: awaiting a reply, queued, held by a task
      that is not complete, or delivered. */
  function Places(s: State, r: Request): nat {
    s.awaiting[r] + Queued(s.queue, r) + InTasks(s.tasks, r) + Deliveries(s.delivered, r)
  }

  lemma {:induction false} QueuedAppend(q: seq<Job>, job: Job, r: Request)
    ensures Queued(q + [job], r) == Queued(q, r) + Bit(job.Register? && job.request == r)
  {
    if q == [] {
      assert q + [job] == [job];
    } else {
      assert (q + [job])[1..] == q[1..] + [job];
      QueuedAppend(q[1..], job, r);
    }
  }

  lemma {:induction false} InTasksUpdate(tasks: seq<Task>, k: nat, t: Task, r: Request)
    requires k < |tasks|
    ensures InTasks(tasks[k := t], r) == InTasks(tasks, r) - Held(tasks[k], r) + Held(t, r)
  {
    var n := |tasks| - 1;
    if k == n {
      assert tasks[k := t][..n] == tasks[..n];
    } else {
      assert tasks[k := t][..n] == tasks[..n][k := t];
      InTasksUpdate(tasks[..n], k, t, r);
    }
  }

  lemma {:induction false} InTasksHas(tasks: seq<Task>, k: nat, r: Request)
    requires k < |tasks|
    ensures Held(tasks[k], r) <= InTasks(tasks, r)
  {
    if k < |tasks| - 1 {
      InTasksHas(tasks[..|tasks| - 1], k, r);
    }
  }

  lemma DeliverPlaces(s: State, q: Request, o: Outcome, r: Request)
    ensures Places(Deliver(s, q, o), r) == Places(s, r) + Bit(q == r)
  {
    assert (s.delivered + [(q, o)])[..|s.delivered|] == s.delivered;
  }

  lemma FinishPlaces(s: State, q: Request, result: Outcome, r: Request)
    ensures Places(Finish(s, q, result), r) == Places(s, r) + Bit(q == r)
  {
    QueuedAppend(s.queue, Remove(NameOf(s, q)), r);
    DeliverPlaces(s, q, result, r);
    DeliverPlaces(s, q, Failure(EXPIRED_MODEL_INFO), r);
  }

  lemma {:induction false} CompletionPlaces(s: State, c: Completion, result: Outcome, r: Request)
    ensures Places(RunCompletion(s, c, result), r) == Places(s, r) + Called(c, r)
    decreases c
  {
    match c
    case Only(q) =>
      FinishPlaces(s, q, result, r);
    case Both(a, b) =>
      CompletionPlaces(s, a, result, r);
      CompletionPlaces(RunCompletion(s, a, result), b, result, r);
  }

  lemma ReplyPlaces(s: State, q: Request, reply: InfoReply, r: Request)
    requires q in s.awaiting
    ensures Places(Next(s, Reply(q, reply)), r) == Places(s, r)
  {
    var s' := s.(awaiting := s.awaiting - multiset{q});
    match reply
    case NewInfo(info) => QueuedAppend(s.queue, Register(q, info), r);
    case NotModified(Some(model)) => DeliverPlaces(s', q, Success(model), r);
    case NotModified(None) => DeliverPlaces(s', q, Failure(DELETED_LOCAL_MODEL), r);
    case InfoFailed(error) => DeliverPlaces(s', q, Failure(error), r);
  }

  lemma ResumePlaces(s: State, t: nat, r: Request)
    requires t < |s.tasks| && s.tasks[t].status != Complete
    ensures Places(Resume(s, t), r) == Places(s, r)
  {
    InTasksUpdate(s.tasks, t, s.tasks[t].(status := Downloading), r);
  }

  lemma RegisterPlaces(s: State, q: Request, info: RemoteModelInfo, r: Request)
    ensures Places(RunRegister(s, q, info), r) == Places(s, r) + Bit(q == r)
  {
    var name := NameOf(s, q);
    if CanMerge(s, name) {
      var t := s.current[name];
      var merged := s.tasks[t].(completion := Both(s.tasks[t].completion, Only(q)));
      InTasksUpdate(s.tasks, t, merged, r);
      assert Called(Only(q), r) == Bit(q == r);
      ResumePlaces(s.(tasks := s.tasks[t := merged]), t, r);
    } else {
      var tasks := s.tasks + [Task(info, name, q, Ready, Only(q))];
      assert tasks[..|s.tasks|] == s.tasks;
      ResumePlaces(s.(tasks := tasks, current := s.current[name := |s.tasks|]), |s.tasks|, r);
    }
  }

  /** A step keeps every request where one place holds it; a new request enters at one. */
  lemma StepPlaces(s: State, e: Event, r: Request)
    requires Enabled(s, e)
    requires e.FileCallback? ==> s.tasks[s.slots[e.downloader]].status == Downloading
    ensures Places(Next(s, e), r) == Places(s, r) + Bit(e.NewRequest? && e.request == r)
  {
    match e
    case NewRequest(_, _) =>
    case Reply(q, reply) =>
      ReplyPlaces(s, q, reply, r);
    case RunHead =>
      var s' := s.(queue := s.queue[1..]);
      if s.queue[0].Register? {
        RegisterPlaces(s', s.queue[0].request, s.queue[0].info, r);
      }
    case FileCallback(d, result) =>
      var t := s.slots[d];
      InTasksUpdate(s.tasks, t, s.tasks[t].(status := Complete), r);
      CompletionPlaces(CompleteTask(s, d), s.tasks[t].completion, result, r);
  }
}
