/** How the reap judges one native lane from its exit code and the files it left. */
module Reap {
  import opened Ids
  import opened LaneProtocol

  /** What the reap can observe about one spawn. */
  datatype Facts = Facts(
    rc: Option<int>,          // None while the process runs
    overtime: bool,           // older than the spawn timeout
    strandedTmp: bool,        // a deliverable whose rename never landed
    content: bool,            // the result file has a non-blank body
    nonDeliverable: bool,     // the body is a provider error or an echo of the brief
    ballot: bool,             // a readable escalation side-file
    ballotAtReport: bool,     // ... still readable when it is reported
    busyRefusal: bool,        // stderr names a busy-lane refusal
    transcript: bool,         // the captured stdout is non-blank
    resultPath: bool,         // the spawn record names a result path
    promoted: bool,           // writing the transcript into it worked
    body: string,             // what the report carries
    posted: bool)             // the report's first post got through

  datatype Outcome =
    | Done | TranscriptPromoted | Blocked | NonDeliverable | LaneBusyRefused
    | LostDeliverable | SpawnFailed | NoResult | Timeout

  function Judge(f: Facts, lane: LaneKey): Option<Outcome> {
    if f.rc == Some(0) && f.strandedTmp then Some(LostDeliverable)
    else if f.rc == Some(0) && f.content then
      Some(if f.nonDeliverable then NonDeliverable else if f.ballot then Blocked else Done)
    else if f.rc.Some? && f.rc.value != 0 then
      Some(if lane != NoLane && f.busyRefusal then LaneBusyRefused else SpawnFailed)
    else if f.rc == Some(0) then
      if f.transcript then
        Some(if f.resultPath && f.promoted then TranscriptPromoted else LostDeliverable)
      else Some(NoResult)
    else if f.overtime then Some(Timeout)
    else None
  }

  /** The exit of a spawn that is not put back on its lane. */
  function ExitFor(o: Outcome, f: Facts, deliveries: nat, retryLimit: nat): Exit {
    match o
    case Done => Completed
    case TranscriptPromoted => Completed
    case Blocked => if f.ballotAtReport then Parked else Completed
    case NonDeliverable => Requeued(deliveries < retryLimit)
    case _ => Failed
  }

  /** A clean exit that left nothing half-written. */
  predicate Clean(f: Facts) {
    f.rc == Some(0) && !f.strandedTmp
  }

  /** The event that has to end a finished spawn, read off what the reap can observe. */
  predicate RightEnd(f: Facts, spawn: Spawn, room: bool, retryLimit: nat, id: TaskId, e: Event) {
    && (f.rc == Some(0) && f.strandedTmp ==> e == Resolved(id, Failed))
    && (Clean(f) && f.content && f.nonDeliverable ==> e == Resolved(id, Requeued(spawn.task.deliveries < retryLimit)))
    && (Clean(f) && f.content && !f.nonDeliverable && !f.ballot ==> e == Resolved(id, Completed))
    && (Clean(f) && f.content && !f.nonDeliverable && f.ballot ==>
          e == Resolved(id, if f.ballotAtReport then Parked else Completed))
    && (Clean(f) && !f.content ==>
          e == Resolved(id, if f.transcript && f.resultPath && f.promoted then Completed else Failed))
    && (f.rc.Some? && f.rc.value != 0 ==>
          if spawn.task.lane != NoLane && f.busyRefusal && spawn.refusals < 5 && room
          then e == Refused(id, spawn.task.lane, spawn.refusals + 1)
          else e == Resolved(id, Failed))
    && (f.rc.None? && f.overtime ==> e == Resolved(id, Failed))
  }

  /** Each judgement and each exit, exactly in terms of what was observed: a lane is judged when it has
      exited or overrun; it completes after a clean exit that left a deliverable nobody vetoed or a
      transcript that could be promoted; only a lane's own spawn can be refused; a veto asks for a
      re-queue exactly below the cap; a readable ballot parks it; everything else fails. */
  lemma {:induction false} JudgementIsSound(f: Facts, lane: LaneKey, deliveries: nat, limit: nat)
    ensures Judge(f, lane).Some? <==> f.rc.Some? || f.overtime
    ensures Judge(f, lane) == Some(LaneBusyRefused) <==>
            lane != NoLane && f.rc.Some? && f.rc.value != 0 && f.busyRefusal
    ensures Judge(f, lane).Some? ==>
            var exit := ExitFor(Judge(f, lane).value, f, deliveries, limit);
            && (exit == Completed <==>
                  Clean(f) && if f.content then !f.nonDeliverable && (f.ballot ==> !f.ballotAtReport)
                              else f.transcript && f.resultPath && f.promoted)
            && (forall retry :: exit == Requeued(retry) <==>
                  Clean(f) && f.content && f.nonDeliverable && retry == (deliveries < limit))
            && (exit == Parked <==> Clean(f) && f.content && !f.nonDeliverable && f.ballot && f.ballotAtReport)
            && (exit == Failed <==>
                  || f.rc != Some(0) || f.strandedTmp
                  || (!f.content && !(f.transcript && f.resultPath && f.promoted)))
  {
  }

  /** The exit that judging leads to is the right end, unless it goes back to its lane; and then that is. */
  lemma {:induction false} JudgedEndIsRight(f: Facts, spawn: Spawn, room: bool, limit: nat, id: TaskId)
    requires Judge(f, spawn.task.lane).Some?
    ensures var o, lane := Judge(f, spawn.task.lane).value, spawn.task.lane;
            RightEnd(f, spawn, room, limit, id,
                     if o == LaneBusyRefused && lane != NoLane && spawn.refusals < MAX_RETRIES && room
                     then Refused(id, lane, spawn.refusals + 1)
                     else Resolved(id, ExitFor(o, f, spawn.task.deliveries, limit)))
  {
  }
}
