/** The downloader and its task objects.  Each method is one serial-queue block, one
    reply or one callback, and does to the objects what the same event of the
    protocol does to values.  `Handle` carries the laws of runs over to the objects. */
module ModelDownloader {
  import opened ModelInfo
  import P = DownloadProtocol
  import L = DownloadLaws
  import D = DownloadProgress
  import O = DownloadOutcomes

  class ModelDownloadTask {
    const id: nat
    const remoteModelInfo: RemoteModelInfo
    const name: string
    const downloader: P.Request
    var downloadStatus: P.Status
    var completion: P.Completion

    constructor (id: nat, info: RemoteModelInfo, name: string, request: P.Request)
      ensures this.id == id && Value() == P.Task(info, name, request, P.Ready, P.Only(request))
    {
      this.id, this.remoteModelInfo, this.name, this.downloader := id, info, name, request;
      downloadStatus, completion := P.Ready, P.Only(request);
    }

    function Value(): P.Task
      reads this
    {
      P.Task(remoteModelInfo, name, downloader, downloadStatus, completion)
    }

    predicate CanMergeRequests()
      reads this
    {
      downloadStatus != P.Complete
    }

    /** The new handler runs after those that were there, in the order of the merges. */
    method Merge(request: P.Request)
      modifies `completion
      ensures P.Calls(completion) == P.Calls(old(completion)) + [request]
      ensures completion == P.Both(old(completion), P.Only(request))
    {
      completion := P.Both(completion, P.Only(request));
    }
  }

  ghost function Values(tasks: seq<ModelDownloadTask>): (vs: seq<P.Task>)
    reads tasks
    ensures |vs| == |tasks| && forall k :: 0 <= k < |vs| ==> vs[k] == tasks[k].Value()
  {
    seq(|tasks|, k requires 0 <= k < |tasks| reads tasks => tasks[k].Value())
  }

  ghost function Ids<K>(m: map<K, ModelDownloadTask>): map<K, nat> {
    map k <- m :: m[k].id
  }

  /** The map's tasks are among `tasks`, each at the index it carries. */
  ghost predicate Among<K>(m: map<K, ModelDownloadTask>, tasks: seq<ModelDownloadTask>) {
    forall k <- m :: m[k].id < |tasks| && tasks[m[k].id] == m[k]
  }

  lemma IdsUpdate<K>(m: map<K, ModelDownloadTask>, k: K, task: ModelDownloadTask)
    ensures Ids(m[k := task]) == Ids(m)[k := task.id]
  {
  }

  lemma Delivered(s: P.State)
    requires L.Inv(s)
    ensures forall r :: P.Deliveries(s.delivered, r) <= 1
    ensures D.AtRest(s) ==> forall r :: P.Deliveries(s.delivered, r) == P.Bit(r in s.names)
  {
    forall r: P.Request ensures P.Deliveries(s.delivered, r) <= 1 {
      assert P.Places(s, r) == P.Bit(r in s.names);
    }
    if D.AtRest(s) {
      forall r: P.Request ensures P.Deliveries(s.delivered, r) == P.Bit(r in s.names) {
        D.RestDeliversAll(s, r);
      }
    }
  }

  class ModelDownloader {
    var names: map<P.Request, string>
    var awaiting: multiset<P.Request>
    var taskSerialQueue: seq<P.Job>
    var currentDownloadTask: map<string, ModelDownloadTask>
    var tasks: seq<ModelDownloadTask>
    var slots: map<P.Request, ModelDownloadTask>
    var outstanding: set<P.Request>
    var started: seq<nat>
    var numberOfRetries: int
    var delivered: seq<(P.Request, Outcome)>

    ghost predicate Valid()
      reads this
    {
      && (forall k :: 0 <= k < |tasks| ==> tasks[k].id == k)
      && Among(currentDownloadTask, tasks)
      && Among(slots, tasks)
    }

    ghost function View(): P.State
      reads this, tasks
    {
      P.State(names, awaiting, taskSerialQueue, Ids(currentDownloadTask), Values(tasks), Ids(slots), outstanding,
              started, numberOfRetries, delivered)
    }

    constructor (retries: int)
      ensures Valid() && View() == P.Initial(retries)
    {
      names, awaiting, taskSerialQueue, currentDownloadTask := map[], multiset{}, [], map[];
      tasks, slots, outstanding, started, numberOfRetries, delivered := [], map[], {}, [], retries, [];
    }

    /** Any events that can happen one after the other.  Every request is afterwards in
        exactly one place, none has been delivered twice, and when nothing more can
        happen each has been delivered once.  What is delivered is what the events cause. */
    method Handle(es: seq<P.Event>)
      requires Valid() && L.Inv(View()) && P.Possible(View(), es)
      modifies this, tasks
      ensures Valid() && P.Runs(old(View()), es, View()) && L.Inv(View())
      ensures forall r :: P.Deliveries(delivered, r) <= 1
      ensures D.AtRest(View()) ==> forall r :: P.Deliveries(delivered, r) == P.Bit(r in names)
      ensures forall r: P.Request, o ::
        (r, o) in delivered <==> (r, o) in old(delivered) || O.Caused(old(View()), es, r, o)
    {
      ghost var start := View();
      HandleAll(es);
      forall r: P.Request, o ensures (r, o) in delivered <==> (r, o) in old(delivered) || O.Caused(start, es, r, o) {
        O.RunOutcomes(start, es, r, o);
      }
      P.AfterRuns(start, es);
      L.RunKeepsInv(start, es, View());
      Delivered(View());
    }

    method HandleAll(es: seq<P.Event>)
      requires Valid() && P.Possible(View(), es)
      modifies this, tasks
      ensures Valid() && View() == P.After(old(View()), es)
    {
      var left := es;
      while left != []
        invariant Valid() && forall k :: 0 <= k < |tasks| ==> tasks[k] in old(tasks) || fresh(tasks[k])
        invariant P.Possible(View(), left) && P.After(View(), left) == P.After(old(View()), es)
        decreases |left|
      {
        HandleOne(left[0]);
        left := left[1..];
      }
    }

    method HandleOne(e: P.Event)
      requires Valid() && P.Enabled(View(), e)
      modifies this, tasks
      ensures Valid() && View() == P.Next(old(View()), e)
      ensures forall k :: 0 <= k < |tasks| ==> tasks[k] in old(tasks) || fresh(tasks[k])
    {
      match e
      case NewRequest(r, name) => NewRequest(r, name);
      case Reply(r, reply) => Reply(r, reply);
      case RunHead => RunHead();
      case FileCallback(d, result) => FileCallback(d, result);
    }

    method NewRequest(r: P.Request, name: string)
      requires Valid() && P.Enabled(View(), P.NewRequest(r, name))
      modifies this
      ensures Valid() && View() == P.Next(old(View()), P.NewRequest(r, name))
      ensures tasks == old(tasks)
    {
      names, awaiting := names[r := name], awaiting + multiset{r};
    }

    method Reply(r: P.Request, reply: P.InfoReply)
      requires Valid() && P.Enabled(View(), P.Reply(r, reply))
      modifies this
      ensures Valid() && View() == P.Next(old(View()), P.Reply(r, reply))
      ensures tasks == old(tasks)
    {
      awaiting := awaiting - multiset{r};
      match reply
      case NewInfo(info) => taskSerialQueue := taskSerialQueue + [P.Register(r, info)];
      case NotModified(Some(model)) => Deliver(r, Success(model));
      case NotModified(None) => Deliver(r, Failure(DELETED_LOCAL_MODEL));
      case InfoFailed(error) => Deliver(r, Failure(error));
    }

    /** The serial queue runs its first block. */
    method RunHead()
      requires Valid() && P.Enabled(View(), P.RunHead)
      modifies this, tasks
      ensures Valid() && View() == P.Next(old(View()), P.RunHead)
      ensures forall k :: 0 <= k < |tasks| ==> tasks[k] in old(tasks) || fresh(tasks[k])
    {
      var job := taskSerialQueue[0];
      taskSerialQueue := taskSerialQueue[1..];
      RunJob(job);
    }

    method RunJob(job: P.Job)
      requires Valid()
      modifies this, tasks
      ensures Valid() && View() == P.RunJob(old(View()), job)
      ensures forall k :: 0 <= k < |tasks| ==> tasks[k] in old(tasks) || fresh(tasks[k])
    {
      match job
      case Register(r, info) =>
        Register(r, info);
      case Remove(name) =>
        RemoveCurrent(name);
    }

    method RemoveCurrent(name: string)
      requires Valid()
      modifies `currentDownloadTask
      ensures Valid() && View() == old(View()).(current := old(View()).current - {name})
    {
      currentDownloadTask := currentDownloadTask - {name};
      assert Ids(currentDownloadTask) == old(Ids(currentDownloadTask)) - {name};
    }

    method Register(r: P.Request, info: RemoteModelInfo)
      requires Valid()
      modifies this, tasks
      ensures Valid() && View() == P.RunRegister(old(View()), r, info)
      ensures forall k :: 0 <= k < |tasks| ==> tasks[k] in old(tasks) || fresh(tasks[k])
    {
      var name := if r in names then names[r] else "";
      if name in currentDownloadTask && currentDownloadTask[name].CanMergeRequests() {
        MergeInto(currentDownloadTask[name], r);
      } else {
        StartTask(name, r, info);
      }
    }

    method MergeInto(task: ModelDownloadTask, r: P.Request)
      requires Valid() && task.id < |tasks| && tasks[task.id] == task
      modifies `slots, `outstanding, `started, task
      ensures Valid()
      ensures
        var s := old(View());
        var merged := s.tasks[task.id].(completion := P.Both(s.tasks[task.id].completion, P.Only(r)));
        var s' := s.(tasks := s.tasks[task.id := merged]);
        View() == if s.tasks[task.id].status == P.Ready then P.Resume(s', task.id) else s'
    {
      task.Merge(r);
      assert Values(tasks) == old(Values(tasks))[task.id := task.Value()];
      if task.downloadStatus == P.Ready {
        Resume(task);
      }
    }

    method StartTask(name: string, r: P.Request, info: RemoteModelInfo)
      requires Valid()
      modifies this
      ensures Valid()
      ensures
        var s := old(View());
        var created := s.tasks + [P.Task(info, name, r, P.Ready, P.Only(r))];
        View() == P.Resume(s.(tasks := created, current := s.current[name := |s.tasks|]), |s.tasks|)
      ensures forall k :: 0 <= k < |tasks| ==> tasks[k] in old(tasks) || fresh(tasks[k])
    {
      var task := CreateTask(name, r, info);
      Resume(task);
    }

    method CreateTask(name: string, r: P.Request, info: RemoteModelInfo) returns (task: ModelDownloadTask)
      requires Valid()
      modifies `tasks, `currentDownloadTask
      ensures Valid() && fresh(task) && tasks == old(tasks) + [task] && task.id == |old(tasks)|
      ensures
        var s := old(View());
        var created := s.tasks + [P.Task(info, name, r, P.Ready, P.Only(r))];
        View() == s.(tasks := created, current := s.current[name := |s.tasks|])
    {
      task := new ModelDownloadTask(|tasks|, info, name, r);
      tasks := tasks + [task];
      currentDownloadTask := currentDownloadTask[name := task];
      assert Values(tasks) == old(Values(tasks)) + [task.Value()];
      assert Ids(currentDownloadTask) == old(Ids(currentDownloadTask))[name := task.id];
    }

    /** `resume` of a task: its downloader's completion slot is set to the task. */
    method Resume(task: ModelDownloadTask)
      requires Valid() && task.id < |tasks| && tasks[task.id] == task
      modifies `slots, `outstanding, `started, task`downloadStatus
      ensures Valid() && View() == P.Resume(old(View()), task.id)
    {
      if task.downloadStatus == P.Downloading {
        return;
      }
      task.downloadStatus := P.Downloading;
      slots := slots[task.downloader := task];
      outstanding, started := outstanding + {task.downloader}, started + [task.id];
      assert Values(tasks) == old(Values(tasks))[task.id := task.Value()];
      IdsUpdate(old(slots), task.downloader, task);
    }

    method FileCallback(d: P.Request, result: Outcome)
      requires Valid() && P.Enabled(View(), P.FileCallback(d, result))
      modifies this, tasks
      ensures Valid() && View() == P.Next(old(View()), P.FileCallback(d, result))
      ensures tasks == old(tasks)
    {
      var task := slots[d];
      outstanding := outstanding - {d};
      task.downloadStatus := P.Complete;
      assert Values(tasks) == old(Values(tasks))[task.id := task.Value()];
      RunCompletion(task.completion, result);
    }

    method RunCompletion(c: P.Completion, result: Outcome)
      requires Valid()
      modifies `taskSerialQueue, `awaiting, `numberOfRetries, `delivered
      ensures Valid() && View() == P.RunCompletion(old(View()), c, result)
      decreases c
    {
      match c
      case Only(r) =>
        TaskCompletion(r, result);
      case Both(first, second) =>
        RunCompletion(first, result);
        RunCompletion(second, result);
    }

    method TaskCompletion(r: P.Request, result: Outcome)
      requires Valid()
      modifies `taskSerialQueue, `awaiting, `numberOfRetries, `delivered
      ensures Valid() && View() == P.Finish(old(View()), r, result)
    {
      if result == Failure(EXPIRED_DOWNLOAD_URL) {
        if numberOfRetries <= 0 {
          Deliver(r, Failure(EXPIRED_MODEL_INFO));
          return;
        }
        Retry(r);
      } else {
        Deliver(r, result);
      }
      taskSerialQueue := taskSerialQueue + [P.Remove(if r in names then names[r] else "")];
    }

    method Retry(r: P.Request)
      requires Valid()
      modifies `awaiting, `numberOfRetries
      ensures Valid()
      ensures var s := old(View()); View() == s.(retries := s.retries - 1, awaiting := s.awaiting + multiset{r})
    {
      numberOfRetries := numberOfRetries - 1;
      awaiting := awaiting + multiset{r};
    }

    method Deliver(r: P.Request, outcome: Outcome)
      requires Valid()
      modifies `delivered
      ensures Valid() && View() == P.Deliver(old(View()), r, outcome)
    {
      delivered := delivered + [(r, outcome)];
    }
  }
}
