/** Who is told what in a run of the download protocol, and where names and model info
    come from, said in terms of the events of the run. */
module DownloadOutcomes {
  import opened Wrappers
  import opened ModelInfo
  import opened DownloadProtocol
  import opened DownloadLaws

  // ----- the outcome of each request

  /** In state `s` the event gives the request this outcome: an info reply for the request
      itself, or a callback of the task that holds it.  An expired URL gives an
      outcome to the requests that the retries no longer cover, in merge order. */
  ghost predicate Causes(s: State, e: Event, r: Request, o: Outcome) {
    match e
    case NewRequest(_, _) => false
    case RunHead => false
    case Reply(q, NewInfo(_)) => false
    case Reply(q, NotModified(Some(m))) => q == r && o == Success(m)
    case Reply(q, NotModified(None)) => q == r && o == Failure(DELETED_LOCAL_MODEL)
    case Reply(q, InfoFailed(error)) => q == r && o == Failure(error)
    case FileCallback(d, result) =>
      && d in s.slots && s.slots[d] < |s.tasks|
      && var rs := Calls(s.tasks[s.slots[d]].completion);
         if result != Failure(EXPIRED_DOWNLOAD_URL) then r in rs && o == result
         else o == Failure(EXPIRED_MODEL_INFO) && exists j :: 0 <= j < |rs| && s.retries <= j && rs[j] == r
  }

  lemma AmongAll(rs: seq<Request>, result: Outcome, r: Request, o: Outcome)
    ensures (r, o) in AllGet(rs, result) <==> r in rs && o == result
  {
    if r in rs && o == result {
      var j :| 0 <= j < |rs| && rs[j] == r;
      assert AllGet(rs, result)[j] == (r, o);
    }
  }

  lemma AmongRest(rs: seq<Request>, retries: int, r: Request)
    ensures r in rs[Covered(retries, |rs|)..] <==> exists j :: 0 <= j < |rs| && retries <= j && rs[j] == r
  {
    var m := Covered(retries, |rs|);
    if j :| 0 <= j < |rs| && retries <= j && rs[j] == r {
      assert rs[m..][j - m] == r;
    }
    if r in rs[m..] {
      var i :| 0 <= i < |rs| - m && rs[m..][i] == r;
      assert rs[m + i] == r;
    }
  }

  lemma CallbackOutcomes(s: State, d: Request, result: Outcome, r: Request, o: Outcome)
    requires Inv(s) && Enabled(s, FileCallback(d, result))
    ensures (r, o) in Next(s, FileCallback(d, result)).delivered
            <==> (r, o) in s.delivered || Causes(s, FileCallback(d, result), r, o)
  {
    var rs := Calls(s.tasks[s.slots[d]].completion);
    CallbackDelivers(s, d, result);
    if result != Failure(EXPIRED_DOWNLOAD_URL) {
      AmongAll(rs, result, r, o);
    } else {
      AmongAll(rs[Covered(s.retries, |rs|)..], Failure(EXPIRED_MODEL_INFO), r, o);
      AmongRest(rs, s.retries, r);
    }
  }

  lemma ReplyOutcomes(s: State, q: Request, reply: InfoReply, r: Request, o: Outcome)
    requires q in s.awaiting
    ensures (r, o) in Next(s, Reply(q, reply)).delivered <==> (r, o) in s.delivered || Causes(s, Reply(q, reply), r, o)
  {
    match reply
    case NewInfo(_) =>
    case NotModified(Some(_)) =>
    case NotModified(None) =>
    case InfoFailed(_) =>
  }

  lemma HeadDelivers(s: State)
    requires s.queue != []
    ensures Next(s, RunHead).delivered == s.delivered
  {
  }

  /** One event delivers exactly what it causes. */
  lemma StepOutcomes(s: State, e: Event, r: Request, o: Outcome)
    requires Inv(s) && Enabled(s, e)
    ensures (r, o) in Next(s, e).delivered <==> (r, o) in s.delivered || Causes(s, e, r, o)
  {
    if e.FileCallback? {
      CallbackOutcomes(s, e.downloader, e.result, r, o);
    } else if e.Reply? {
      ReplyOutcomes(s, e.request, e.reply, r, o);
    } else if e.RunHead? {
      HeadDelivers(s);
    }
  }

  /** The state before the event at index `k`. */
  function StateAt(s: State, es: seq<Event>, k: nat): State
    requires Possible(s, es) && k <= |es|
    decreases k
  {
    if k == 0 then s else StateAt(Next(s, es[0]), es[1..], k - 1)
  }

  /** Some event of the run gives the request this outcome. */
  ghost predicate Caused(s: State, es: seq<Event>, r: Request, o: Outcome)
    requires Possible(s, es)
  {
    exists k: nat :: k < |es| && Causes(StateAt(s, es, k), es[k], r, o)
  }

  lemma CausedFirst(s: State, es: seq<Event>, r: Request, o: Outcome)
    requires Possible(s, es) && es != []
    ensures Caused(s, es, r, o) <==> Causes(s, es[0], r, o) || Caused(Next(s, es[0]), es[1..], r, o)
  {
    var s' := Next(s, es[0]);
    if k: nat :| k < |es| && Causes(StateAt(s, es, k), es[k], r, o) {
      if k > 0 {
        assert Causes(StateAt(s', es[1..], k - 1), es[1..][k - 1], r, o);
      }
    }
    if Causes(s, es[0], r, o) {
      assert Causes(StateAt(s, es, 0), es[0], r, o);
    }
    if Caused(s', es[1..], r, o) {
      var k: nat :| k < |es[1..]| && Causes(StateAt(s', es[1..], k), es[1..][k], r, o);
      assert Causes(StateAt(s, es, k + 1), es[k + 1], r, o);
    }
  }

  /** In every run a request has been given an outcome exactly when some event caused it. */
  lemma {:induction false} RunOutcomes(s: State, es: seq<Event>, r: Request, o: Outcome)
    requires Inv(s) && Possible(s, es)
    ensures (r, o) in After(s, es).delivered <==> (r, o) in s.delivered || Caused(s, es, r, o)
    decreases |es|
  {
    if es != [] {
      CausedFirst(s, es, r, o);
      StepKeepsInv(s, es[0]);
      StepOutcomes(s, es[0], r, o);
      RunOutcomes(Next(s, es[0]), es[1..], r, o);
    }
  }

  lemma {:induction false} DeliveriesAt(ds: seq<(Request, Outcome)>, i: nat)
    requires i < |ds|
    ensures Deliveries(ds, ds[i].0) > 0
  {
    if i < |ds| - 1 {
      DeliveriesAt(ds[..|ds| - 1], i);
    }
  }

  lemma {:induction false} DeliveriesTwice(ds: seq<(Request, Outcome)>, i: nat, j: nat)
    requires i < j < |ds| && ds[i].0 == ds[j].0
    ensures Deliveries(ds, ds[i].0) > 1
  {
    var n := |ds| - 1;
    if j < n {
      DeliveriesTwice(ds[..n], i, j);
    } else {
      DeliveriesAt(ds[..n], i);
    }
  }

  /** So the outcome of a request is the one that its only cause gives. */
  lemma OneOutcome(s: State, r: Request, o: Outcome, o': Outcome)
    requires Inv(s) && (r, o) in s.delivered && (r, o') in s.delivered
    ensures o == o'
  {
    var i :| 0 <= i < |s.delivered| && s.delivered[i] == (r, o);
    var j :| 0 <= j < |s.delivered| && s.delivered[j] == (r, o');
    assert Places(s, r) <= 1;
    if i < j {
      DeliveriesTwice(s.delivered, i, j);
    } else if j < i {
      DeliveriesTwice(s.delivered, j, i);
    }
  }

  /** From the start of the app on, requests are given exactly the outcomes that events cause,
      and no request two different ones. */
  lemma OutcomesExplained(budget: int, es: seq<Event>, r: Request, o: Outcome)
    requires Possible(Initial(budget), es)
    ensures (r, o) in After(Initial(budget), es).delivered <==> Caused(Initial(budget), es, r, o)
    ensures var told := After(Initial(budget), es).delivered;
      forall o' :: (r, o) in told && (r, o') in told ==> o == o'
  {
    var s0, s := Initial(budget), After(Initial(budget), es);
    assert Inv(s0);
    AfterRuns(s0, es);
    RunKeepsInv(s0, es, s);
    RunOutcomes(s0, es, r, o);
    forall o' | (r, o) in s.delivered && (r, o') in s.delivered ensures o == o' {
      OneOutcome(s, r, o, o');
    }
  }

  lemma {:induction false} CallsIff(c: Completion, r: Request)
    ensures r in Calls(c) <==> Called(c, r) > 0
  {
    match c
    case Only(_) =>
    case Both(a, b) =>
      CallsIff(a, r);
      CallsIff(b, r);
  }

  /** A request is told only of downloads of its own model. */
  lemma OwnModel(s: State, d: Request, result: Outcome, r: Request, o: Outcome)
    requires Inv(s) && Enabled(s, FileCallback(d, result)) && Causes(s, FileCallback(d, result), r, o)
    ensures r in s.names && s.tasks[s.slots[d]].name == s.names[r]
  {
    CallsIff(s.tasks[s.slots[d]].completion, r);
    assert TaskOk(s, s.slots[d]);
  }

  // ----- where names and model info come from

  /** The model name of a request is the one it was made with. */
  lemma {:induction false} RunNames(s: State, es: seq<Event>, r: Request, name: string)
    requires Possible(s, es)
    ensures r in After(s, es).names && After(s, es).names[r] == name
            <==> (r in s.names && s.names[r] == name) || NewRequest(r, name) in es
    decreases |es|
  {
    if es != [] {
      CompletionKeepsNames(s, es[0]);
      RunNames(Next(s, es[0]), es[1..], r, name);
      if r in s.names {
        NotAgain(s, es, r);
      } else if es[0].NewRequest? && es[0].request == r {
        NotAgain(Next(s, es[0]), es[1..], r);
      }
    }
  }

  lemma {:induction false} NotAgain(s: State, es: seq<Event>, r: Request)
    requires Possible(s, es) && r in s.names
    ensures forall name :: NewRequest(r, name) !in es
    decreases |es|
  {
    if es != [] {
      CompletionKeepsNames(s, es[0]);
      NotAgain(Next(s, es[0]), es[1..], r);
    }
  }

  /** Registrations and tasks carry the model info of a reply to the request they are for. */
  predicate Sourced(s: State, past: seq<Event>) {
    && (forall k :: 0 <= k < |s.queue| ==>
          (s.queue[k].Register? ==> Reply(s.queue[k].request, NewInfo(s.queue[k].info)) in past))
    && forall t :: 0 <= t < |s.tasks| ==> Reply(s.tasks[t].downloader, NewInfo(s.tasks[t].info)) in past
  }

  lemma RegisterSourced(s: State, past: seq<Event>, r: Request, info: RemoteModelInfo)
    requires Sourced(s, past) && Reply(r, NewInfo(info)) in past
    ensures Sourced(RunRegister(s, r, info), past)
  {
  }

  lemma MoreSourced(s: State, past: seq<Event>, e: Event)
    requires Sourced(s, past)
    ensures Sourced(s, past + [e])
  {
  }

  lemma CallbackSourced(s: State, past: seq<Event>, d: Request, result: Outcome)
    requires Inv(s) && Sourced(s, past) && Enabled(s, FileCallback(d, result))
    ensures Sourced(Next(s, FileCallback(d, result)), past)
  {
    CallbackDelivers(s, d, result);
    var s' := Next(s, FileCallback(d, result));
    var rs := Calls(s.tasks[s.slots[d]].completion);
    RemovalsRemove(s.names, rs);
    RemovalsRemove(s.names, rs[..Covered(s.retries, |rs|)]);
    assert forall k :: 0 <= k < |s.queue| ==> s'.queue[k] == s.queue[k];
    assert forall k :: |s.queue| <= k < |s'.queue| ==> s'.queue[k].Remove?;
  }

  lemma {:induction false} RemovalsRemove(names: map<Request, string>, rs: seq<Request>)
    ensures forall k :: 0 <= k < |Removals(names, rs)| ==> Removals(names, rs)[k].Remove?
  {
    if rs != [] {
      RemovalsRemove(names, rs[1..]);
    }
  }

  lemma StepSourced(s: State, past: seq<Event>, e: Event)
    requires Inv(s) && Sourced(s, past) && Enabled(s, e)
    ensures Sourced(Next(s, e), past + [e])
  {
    MoreSourced(s, past, e);
    assert e in past + [e];
    if e.FileCallback? {
      CallbackSourced(s, past + [e], e.downloader, e.result);
    } else if e.RunHead? {
      var s' := s.(queue := s.queue[1..]);
      assert Sourced(s', past + [e]);
      if s.queue[0].Register? {
        RegisterSourced(s', past + [e], s.queue[0].request, s.queue[0].info);
      }
    }
  }

  lemma {:induction false} RunSourced(s: State, past: seq<Event>, es: seq<Event>)
    requires Inv(s) && Sourced(s, past) && Possible(s, es)
    ensures Sourced(After(s, es), past + es)
    decreases |es|
  {
    if es == [] {
      assert past + es == past;
    } else {
      StepSourced(s, past, es[0]);
      StepKeepsInv(s, es[0]);
      RunSourced(Next(s, es[0]), past + [es[0]], es[1..]);
      assert past + [es[0]] + es[1..] == past + es;
    }
  }

  /** In every run each download is made with the model info of a reply to the request that
      started it, and each request has the model name it was made with. */
  lemma DownloadsAsTold(budget: int, es: seq<Event>, t: nat, r: Request, name: string)
    requires Possible(Initial(budget), es)
    ensures var s := After(Initial(budget), es);
      && (t < |s.tasks| ==> Reply(s.tasks[t].downloader, NewInfo(s.tasks[t].info)) in es)
      && (r in s.names && s.names[r] == name <==> NewRequest(r, name) in es)
  {
    assert Inv(Initial(budget));
    RunSourced(Initial(budget), [], es);
    assert [] + es == es;
    RunNames(Initial(budget), es, r, name);
  }

  // ----- the serial queue

  /** The serial queue is first in, first out, and only callbacks use up retries. */
  lemma QueueIsFifo(s: State, e: Event)
    requires Inv(s) && Enabled(s, e)
    ensures if e.RunHead? then Next(s, e).queue == s.queue[1..] else s.queue <= Next(s, e).queue
    ensures !e.FileCallback? ==> Next(s, e).retries == s.retries
  {
    if e.FileCallback? {
      CallbackDelivers(s, e.downloader, e.result);
    }
  }
}
