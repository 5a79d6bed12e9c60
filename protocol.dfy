/** The coordinator's side of one CPU turn of Lab2/game.py as values: the loop that
    answers workers' messages while some worker is still active.  Each message is
    either a request for work, a returned result, or something else. */
module Protocol {
  import opened Errors
  import M = BoardModel
  import opened Rules
  import opened Tasks

  /** A tag that is neither TAG_REQUEST nor TAG_RESULT. */
  type OtherTag = t: int | t != TagRequest && t != TagResult witness TagTask

  /** A message as the coordinator sees it after comm.recv: its source rank and what
      its tag makes of it.  `Other` carries any tag but TAG_REQUEST and TAG_RESULT. */
  datatype Event =
    | Request(source: int)
    | Returned(source: int, moves: seq<M.Placement>, result: real)
    | Other(source: int, tag: OtherTag)

  /** The event a message with status `source` and `tag` is: a request under
      TAG_REQUEST, a result (the placements and score of the message) under TAG_RESULT,
      and an unexpected tag otherwise. */
  function EventOf(source: int, tag: int, moves: seq<M.Placement>, result: real): (e: Event)
    ensures e.source == source
    ensures e.Request? <==> tag == TagRequest
    ensures e.Returned? <==> tag == TagResult
    ensures e.Returned? ==> e.moves == moves && e.result == result
    ensures e.Other? ==> e.tag == tag
  {
    if tag == TagRequest then Request(source)
    else if tag == TagResult then Returned(source, moves, result)
    else Other(source, tag)
  }

  /** What the coordinator sends back: a task (TAG_TASK) or TAG_WAIT. */
  datatype Reply = SendTask(dest: int, task: Task) | SendWait(dest: int)

  /** The tag comm.send puts on a reply. */
  function ReplyTag(r: Reply): (tag: int)
    ensures tag == TagTask <==> r.SendTask?
    ensures tag == TagWait <==> r.SendWait?
  {
    if r.SendTask? then TagTask else TagWait
  }

  /** tasks, moves_result_list and active_workers. */
  datatype Dispatch = Dispatch(tasks: seq<Task>, cache: Option<seq<CacheEntry>>, active: int)

  /** One turn of the loop: a request is served with the next inactive task or told
      to wait (and then counts as no longer active); a result is recorded; any other
      tag raises. */
  function Step(d: Dispatch, e: Event): Result<(Dispatch, Option<Reply>)> {
    match e
    case Request(src) =>
      var (ts, t) := Claim(d.tasks);
      if t.Some? then Ok((d.(tasks := ts), Some(SendTask(src, t.value))))
      else Ok((d.(active := d.active - 1), Some(SendWait(src))))
    case Returned(_, moves, result) =>
      (match Record(d.tasks, d.cache, moves, result)
       case Err(err) => Err(err)
       case Ok((ts, c)) => Ok((Dispatch(ts, c, d.active), None)))
    case Other(_, tag) => Err(UnexpectedTag(tag))
  }

  /** Where the loop stopped, what it sent, and how many messages it read. */
  datatype Served = Served(state: Dispatch, replies: seq<Reply>, consumed: nat)

  function Replies(r: Option<Reply>): seq<Reply> {
    if r.Some? then [r.value] else []
  }

  /** The rest of a run, after `rs` were sent for `n` messages. */
  function Then(rs: seq<Reply>, n: nat, r: Result<Served>): Result<Served> {
    match r
    case Err(err) => Err(err)
    case Ok(sv) => Ok(Served(sv.state, rs + sv.replies, n + sv.consumed))
  }

  lemma ThenNothing(r: Result<Served>)
    ensures Then([], 0, r) == r
  {
    if r.Ok? {
      assert [] + r.value.replies == r.value.replies;
    }
  }

  lemma ThenThen(rs1: seq<Reply>, n1: nat, rs2: seq<Reply>, n2: nat, r: Result<Served>)
    ensures Then(rs1, n1, Then(rs2, n2, r)) == Then(rs1 + rs2, n1 + n2, r)
  {
    if r.Ok? {
      assert rs1 + (rs2 + r.value.replies) == (rs1 + rs2) + r.value.replies;
    }
  }

  /** while active_workers > 0: receive and handle the next message.  The messages are
      given in the order they arrive; when they run out while a worker is active the
      loop has not finished. */
  function Run(d: Dispatch, events: seq<Event>): Result<Served>
    decreases |events|
  {
    if d.active <= 0 || events == [] then Ok(Served(d, [], 0))
    else
      match Step(d, events[0])
      case Err(err) => Err(err)
      case Ok((d1, r)) => Then(Replies(r), 1, Run(d1, events[1..]))
  }

  predicate AllActive(tasks: seq<Task>) {
    forall j :: 0 <= j < |tasks| ==> tasks[j].active
  }

  /** A request gets a task exactly when an inactive task is left, and that task is the
      first inactive one, now marked active; otherwise it gets TAG_WAIT and one worker
      fewer is active. */
  lemma StepRequest(d: Dispatch, src: int)
    ensures Step(d, Request(src)).Ok?
    ensures var (d1, r) := Step(d, Request(src)).value;
            && r.Some? && r.value.dest == src
            && (r.value.SendTask? <==> !AllActive(d.tasks))
            && (r.value.SendTask? ==> && d1.active == d.active && d1.cache == d.cache
                                      && FirstInactive(d.tasks, 0).Some?
                                      && r.value.task == d.tasks[FirstInactive(d.tasks, 0).value].(active := true)
                                      && d1.tasks == d.tasks[FirstInactive(d.tasks, 0).value := r.value.task]
                                      && ActiveCount(d1.tasks) == ActiveCount(d.tasks) + 1)
            && (r.value.SendWait? ==> d1 == d.(active := d.active - 1))
  {
    ClaimMeaning(d.tasks);
  }

  /** A result changes neither the number of active workers nor the number of active
      tasks, and is answered with nothing; an unknown tag raises. */
  lemma StepOthers(d: Dispatch, e: Event)
    requires !e.Request?
    ensures e.Other? ==> Step(d, e) == Err(UnexpectedTag(e.tag))
    ensures Step(d, e).Ok? ==>
              var (d1, r) := Step(d, e).value;
              && r.None? && d1.active == d.active
              && |d1.tasks| == |d.tasks| && ActiveCount(d1.tasks) == ActiveCount(d.tasks)
              && (AllActive(d.tasks) ==> AllActive(d1.tasks))
  {
    if e.Returned? && FirstMatch(d.tasks, e.moves, 0).Some? && d.cache.Some? {
      RecordThenLookup(d.tasks, d.cache.value, e.moves, e.result, e.moves);
    }
  }

  function CountTasks(rs: seq<Reply>): nat {
    if rs == [] then 0 else (if rs[0].SendTask? then 1 else 0) + CountTasks(rs[1..])
  }

  function CountWaits(rs: seq<Reply>): nat {
    if rs == [] then 0 else (if rs[0].SendWait? then 1 else 0) + CountWaits(rs[1..])
  }

  /** The loop reads messages only while a worker is active and stops as soon as none
      is: it has finished exactly when it stopped before the messages ran out, or at
      the last of them with no worker active. Every task sent is one more active task,
      every TAG_WAIT one worker fewer, and the task list keeps its length. */
  lemma {:induction false} RunAccounting(d: Dispatch, events: seq<Event>)
    requires Run(d, events).Ok?
    ensures var sv := Run(d, events).value;
            && sv.consumed <= |events|
            && (sv.consumed < |events| ==> sv.state.active <= 0)
            && (sv.state.active > 0 ==> sv.consumed == |events|)
            && (d.active >= 0 ==> sv.state.active >= 0)
            && (d.active > 0 && sv.consumed < |events| ==> sv.state.active == 0)
            && |sv.state.tasks| == |d.tasks|
            && ActiveCount(sv.state.tasks) == ActiveCount(d.tasks) + CountTasks(sv.replies)
            && sv.state.active == d.active - CountWaits(sv.replies)
    decreases |events|
  {
    if d.active > 0 && events != [] {
      var (d1, r) := Step(d, events[0]).value;
      if events[0].Request? {
        StepRequest(d, events[0].source);
      } else {
        StepOthers(d, events[0]);
      }
      RunAccounting(d1, events[1..]);
      var sv := Run(d1, events[1..]).value;
      assert Run(d, events).value.replies == Replies(r) + sv.replies;
      if r.Some? {
        assert (Replies(r) + sv.replies)[1..] == sv.replies;
        assert CountTasks(Replies(r) + sv.replies) == (if r.value.SendTask? then 1 else 0) + CountTasks(sv.replies);
        assert CountWaits(Replies(r) + sv.replies) == (if r.value.SendWait? then 1 else 0) + CountWaits(sv.replies);
      } else {
        assert Replies(r) + sv.replies == sv.replies;
      }
    }
  }

  /** Once every task is active no task is sent any more. */
  lemma {:induction false} NoTaskWhenAllActive(d: Dispatch, events: seq<Event>)
    requires AllActive(d.tasks) && Run(d, events).Ok?
    ensures forall i :: 0 <= i < |Run(d, events).value.replies| ==> Run(d, events).value.replies[i].SendWait?
    decreases |events|
  {
    if d.active > 0 && events != [] {
      var (d1, r) := Step(d, events[0]).value;
      if events[0].Request? {
        StepRequest(d, events[0].source);
      } else {
        StepOthers(d, events[0]);
      }
      NoTaskWhenAllActive(d1, events[1..]);
    }
  }

  /** No worker is sent a task after some worker has been told to wait: TAG_WAIT is
      only sent when no inactive task is left, and none becomes inactive again. */
  lemma {:induction false} NoTaskAfterWait(d: Dispatch, events: seq<Event>)
    requires Run(d, events).Ok?
    ensures var rs := Run(d, events).value.replies;
            forall i, j :: 0 <= i < j < |rs| && rs[i].SendWait? ==> rs[j].SendWait?
    decreases |events|
  {
    if d.active > 0 && events != [] {
      var (d1, r) := Step(d, events[0]).value;
      var rs := Run(d, events).value.replies;
      var rest := Run(d1, events[1..]).value.replies;
      NoTaskAfterWait(d1, events[1..]);
      if events[0].Request? {
        StepRequest(d, events[0].source);
        if r.value.SendWait? {
          NoTaskWhenAllActive(d1, events[1..]);
          assert rs == [r.value] + rest;
          forall j | 0 < j < |rs| ensures rs[j].SendWait? {
            assert rs[j] == rest[j - 1];
          }
        } else {
          assert rs == [r.value] + rest;
          forall i, j | 0 <= i < j < |rs| && rs[i].SendWait? ensures rs[j].SendWait? {
            assert rs[i] == rest[i - 1] && rs[j] == rest[j - 1];
          }
        }
      } else {
        StepOthers(d, events[0]);
        assert rs == rest;
      }
    }
  }
}
