/**
 Request bookkeeping of `frontend/app/composables/useApi.ts`.

 Every run of `fetch` past its session checks is a frame with one abort controller. The map of
 controllers is shared by all instances; `activeRequests` belongs to one instance. Frames
 interleave at each `await`. A frame that is told its access token has expired may renew it and
 call `fetch` once more; the new frame runs inside the old one.
 */
module ApiRequests {
  import opened Wrappers

  type Id = string

  /**
   Where a frame stands: awaiting the response, renewing access, awaiting the session checks of
   its retry, awaiting the retry's frame, or past its `finally`.
   */
  datatype Phase = InFlight | Renewing | Retrying | Awaiting(child: Id) | Closed

  datatype Frame = Frame(api: string, key: string, cancelPrevious: bool, isRetry: bool, parent: Option<Id>, phase: Phase)

  datatype State = State(
    controllers: map<string, Id>,  // requestControllers; a controller has the name of its frame
    aborted: set<Id>,
    active: map<string, int>,      // activeRequests of each instance
    frames: map<Id, Frame>)

  datatype Step =
    | Cancel(key: string)
    | Call(id: Id, api: string, key: string, cancelPrevious: bool, isRetry: bool)
    | Settle(id: Id)                  // a response, an error or an abort that is not retried
    | TokenExpired(id: Id)
    | Renewed(id: Id, replay: bool)   // replay: access was renewed and the body can be sent again
    | Refused(id: Id)                 // the session checks of the retry throw
    | Retry(id: Id, child: Id)
    | Resume(id: Id)                  // the retry's frame has closed

  const Initial: State := State(map[], {}, map[], map[])

  function Active(s: State, api: string): int {
    if api in s.active then s.active[api] else 0
  }

  /** `cancelRequest` */
  function Cancelled(s: State, key: string): State {
    if key in s.controllers then s.(aborted := s.aborted + {s.controllers[key]}, controllers := s.controllers - {key}) else s
  }

  /** From the cancellation to the call of `$fetch` */
  function Opened(s: State, id: Id, frame: Frame): State {
    var t := if frame.cancelPrevious then Cancelled(s, frame.key) else s;
    State(t.controllers[frame.key := id], t.aborted, t.active[frame.api := Active(t, frame.api) + 1], t.frames[id := frame])
  }

  /** The `finally` block */
  function Finished(s: State, id: Id): State
    requires id in s.frames
  {
    var frame := s.frames[id];
    var left := Active(s, frame.api) - 1;
    State(if frame.key in s.controllers && s.controllers[frame.key] == id then s.controllers - {frame.key} else s.controllers,
          s.aborted, s.active[frame.api := if left < 0 then 0 else left], s.frames[id := frame.(phase := Closed)])
  }

  function To(s: State, id: Id, phase: Phase): State
    requires id in s.frames
  {
    s.(frames := s.frames[id := s.frames[id].(phase := phase)])
  }

  /** A step that is not enabled changes nothing. */
  function Next(s: State, step: Step): State {
    match step
    case Cancel(key) => Cancelled(s, key)
    case Call(id, api, key, cancelPrevious, isRetry) =>
      if id in s.frames then s else Opened(s, id, Frame(api, key, cancelPrevious, isRetry, None, InFlight))
    case Settle(id) => if id in s.frames && s.frames[id].phase.InFlight? then Finished(s, id) else s
    case TokenExpired(id) =>
      if id in s.frames && s.frames[id].phase.InFlight? && !s.frames[id].isRetry then To(s, id, Renewing) else s
    case Renewed(id, replay) =>
      if id in s.frames && s.frames[id].phase.Renewing? then if replay then To(s, id, Retrying) else Finished(s, id) else s
    case Refused(id) => if id in s.frames && s.frames[id].phase.Retrying? then Finished(s, id) else s
    case Retry(id, child) =>
      if id in s.frames && s.frames[id].phase.Retrying? && child !in s.frames then
        To(Opened(s, child, s.frames[id].(isRetry := true, parent := Some(id), phase := InFlight)), id, Awaiting(child))
      else s
    case Resume(id) =>
      if id in s.frames && s.frames[id].phase.Awaiting? && s.frames[id].phase.child in s.frames
         && s.frames[s.frames[id].phase.child].phase.Closed?
      then Finished(s, id) else s
  }

  function Run(s: State, steps: seq<Step>): State
    decreases |steps|
  {
    if steps == [] then s else Run(Next(s, steps[0]), steps[1..])
  }

  // ---------------------------------------------------------------------------------------
  // The counter
  // ---------------------------------------------------------------------------------------

  function OpenFrames(frames: map<Id, Frame>, api: string): set<Id> {
    set id | id in frames && frames[id].api == api && !frames[id].phase.Closed?
  }

  ghost predicate Counted(s: State) {
    forall api :: Active(s, api) == |OpenFrames(s.frames, api)|
  }

  /** Controllers belong to open frames under their key, and are not aborted. */
  ghost predicate Registered(s: State) {
    && (forall k :: k in s.controllers ==>
          var id := s.controllers[k];
          id in s.frames && s.frames[id].key == k && !s.frames[id].phase.Closed? && id !in s.aborted)
    && s.aborted <= s.frames.Keys
  }

  /** Retries are of the second generation, and hang one each below the frame that awaits them. */
  ghost predicate Family(frames: map<Id, Frame>) {
    && (forall c :: c in frames && frames[c].parent.Some? ==>
          var p := frames[c].parent.value;
          && p in frames && frames[c].isRetry && !frames[p].isRetry && frames[c].key == frames[p].key
          && (frames[p].phase.Closed? || frames[p].phase == Awaiting(c)))
    && (forall id :: id in frames && frames[id].isRetry ==> frames[id].phase.InFlight? || frames[id].phase.Closed?)
    && (forall c, d :: c in frames && d in frames && frames[c].parent.Some? && frames[c].parent == frames[d].parent ==> c == d)
  }

  ghost predicate Inv(s: State) {
    Counted(s) && Registered(s) && Family(s.frames)
  }

  lemma CountOpened(s: State, id: Id, frame: Frame)
    requires Counted(s) && id !in s.frames && !frame.phase.Closed?
    ensures Counted(Opened(s, id, frame))
  {
    var t := Opened(s, id, frame);
    OpenedCounts(s, id, frame);
    OneFrameMore(s.frames, id, frame);
    forall api
      ensures Active(t, api) == |OpenFrames(t.frames, api)|
    {
      assert Active(s, api) == |OpenFrames(s.frames, api)|;
      assert id !in OpenFrames(s.frames, api);
    }
  }

  lemma OpenedCounts(s: State, id: Id, frame: Frame)
    ensures var t := Opened(s, id, frame);
      t.frames == s.frames[id := frame] && t.active == s.active[frame.api := Active(s, frame.api) + 1]
  {
    assert Cancelled(s, frame.key).active == s.active && Cancelled(s, frame.key).frames == s.frames;
  }

  lemma OneFrameMore(frames: map<Id, Frame>, id: Id, frame: Frame)
    requires id !in frames && !frame.phase.Closed?
    ensures forall api ::
      (OpenFrames(frames[id := frame], api) == if api == frame.api then OpenFrames(frames, api) + {id} else OpenFrames(frames, api))
  {
  }

  lemma CountFinished(s: State, id: Id)
    requires Counted(s) && id in s.frames && !s.frames[id].phase.Closed?
    ensures Counted(Finished(s, id))
    ensures Active(s, s.frames[id].api) >= 1
  {
    var t := Finished(s, id);
    assert id in OpenFrames(s.frames, s.frames[id].api);
    assert forall api :: OpenFrames(t.frames, api) == if api == s.frames[id].api then OpenFrames(s.frames, api) - {id} else OpenFrames(s.frames, api);
  }

  lemma CountMoved(s: State, id: Id, phase: Phase)
    requires Counted(s) && id in s.frames && !s.frames[id].phase.Closed? && !phase.Closed?
    ensures Counted(To(s, id, phase))
  {
    assert forall api :: OpenFrames(To(s, id, phase).frames, api) == OpenFrames(s.frames, api);
  }

  lemma CountCancelled(s: State, key: string)
    requires Counted(s)
    ensures Counted(Cancelled(s, key))
  {
    assert forall api :: Active(Cancelled(s, key), api) == Active(s, api);
  }

  lemma NextKeepsCount(s: State, step: Step)
    requires Inv(s)
    ensures Counted(Next(s, step))
  {
    match step
    case Cancel(key) => CountCancelled(s, key);
    case Call(id, api, key, cancelPrevious, isRetry) =>
      if id !in s.frames {
        CountOpened(s, id, Frame(api, key, cancelPrevious, isRetry, None, InFlight));
      }
    case Settle(id) => MayFinish(s, id);
    case TokenExpired(id) =>
      if id in s.frames && s.frames[id].phase.InFlight? {
        CountMoved(s, id, Renewing);
      }
    case Renewed(id, replay) =>
      MayFinish(s, id);
      if id in s.frames && s.frames[id].phase.Renewing? {
        CountMoved(s, id, Retrying);
      }
    case Refused(id) => MayFinish(s, id);
    case Retry(id, child) =>
      if id in s.frames && s.frames[id].phase.Retrying? && child !in s.frames {
        var frame := s.frames[id].(isRetry := true, parent := Some(id), phase := InFlight);
        CountOpened(s, child, frame);
        CountMoved(Opened(s, child, frame), id, Awaiting(child));
      }
    case Resume(id) => MayFinish(s, id);
  }

  lemma MayFinish(s: State, id: Id)
    requires Counted(s)
    ensures id in s.frames && !s.frames[id].phase.Closed? ==> Counted(Finished(s, id))
  {
    if id in s.frames && !s.frames[id].phase.Closed? {
      CountFinished(s, id);
    }
  }

  // ---------------------------------------------------------------------------------------
  // The controllers and the retries
  // ---------------------------------------------------------------------------------------

  lemma RegisteredCancelled(s: State, key: string)
    requires Registered(s)
    ensures Registered(Cancelled(s, key))
  {
  }

  lemma RegisteredOpened(s: State, id: Id, frame: Frame)
    requires Registered(s) && id !in s.frames && !frame.phase.Closed?
    ensures Registered(Opened(s, id, frame))
  {
    RegisteredCancelled(s, frame.key);
    var t := if frame.cancelPrevious then Cancelled(s, frame.key) else s;
    assert Registered(t) && t.frames == s.frames;
    assert id !in t.aborted;
  }

  lemma RegisteredFinished(s: State, id: Id)
    requires Registered(s) && id in s.frames
    ensures Registered(Finished(s, id))
  {
  }

  lemma RegisteredMoved(s: State, id: Id, phase: Phase)
    requires Registered(s) && id in s.frames && !phase.Closed?
    ensures Registered(To(s, id, phase))
  {
  }

  lemma NextKeepsRegistered(s: State, step: Step)
    requires Registered(s)
    ensures Registered(Next(s, step))
  {
    match step
    case Cancel(key) => RegisteredCancelled(s, key);
    case Call(id, api, key, cancelPrevious, isRetry) =>
      if id !in s.frames {
        RegisteredOpened(s, id, Frame(api, key, cancelPrevious, isRetry, None, InFlight));
      }
    case Settle(id) => RegisteredAfterFinish(s, id);
    case TokenExpired(id) => RegisteredAfterMove(s, id, Renewing);
    case Renewed(id, replay) =>
      RegisteredAfterFinish(s, id);
      RegisteredAfterMove(s, id, Retrying);
    case Refused(id) => RegisteredAfterFinish(s, id);
    case Retry(id, child) =>
      if id in s.frames && child !in s.frames {
        var frame := s.frames[id].(isRetry := true, parent := Some(id), phase := InFlight);
        RegisteredOpened(s, child, frame);
        RegisteredMoved(Opened(s, child, frame), id, Awaiting(child));
      }
    case Resume(id) => RegisteredAfterFinish(s, id);
  }

  lemma RegisteredAfterFinish(s: State, id: Id)
    requires Registered(s)
    ensures id in s.frames ==> Registered(Finished(s, id))
  {
    if id in s.frames {
      RegisteredFinished(s, id);
    }
  }

  lemma RegisteredAfterMove(s: State, id: Id, phase: Phase)
    requires Registered(s) && !phase.Closed?
    ensures id in s.frames ==> Registered(To(s, id, phase))
  {
    if id in s.frames {
      RegisteredMoved(s, id, phase);
    }
  }

  lemma FamilyMoved(frames: map<Id, Frame>, id: Id, phase: Phase)
    requires Family(frames) && id in frames
    requires phase.Closed? || (!frames[id].isRetry && !frames[id].phase.Closed? && !frames[id].phase.Awaiting?)
    ensures Family(frames[id := frames[id].(phase := phase)])
  {
    assert !phase.Closed? ==> forall c :: c in frames && frames[c].parent.Some? ==> frames[c].parent.value != id;
  }

  lemma FamilyCall(frames: map<Id, Frame>, id: Id, frame: Frame)
    requires Family(frames) && id !in frames && frame.parent.None? && frame.phase.InFlight?
    ensures Family(frames[id := frame])
  {
  }

  lemma FamilyRetry(frames: map<Id, Frame>, id: Id, child: Id)
    requires Family(frames) && id in frames && child !in frames && frames[id].phase.Retrying?
    ensures Family(frames[child := frames[id].(isRetry := true, parent := Some(id), phase := InFlight)][id := frames[id].(phase := Awaiting(child))])
  {
    assert forall c :: c in frames && frames[c].parent.Some? ==> frames[c].parent.value != id;
  }

  lemma NextKeepsFamily(s: State, step: Step)
    requires Family(s.frames)
    ensures Family(Next(s, step).frames)
  {
    match step
    case Cancel(key) =>
    case Call(id, api, key, cancelPrevious, isRetry) =>
      if id !in s.frames {
        FamilyCall(s.frames, id, Frame(api, key, cancelPrevious, isRetry, None, InFlight));
      }
    case Settle(id) => FamilyAfter(s.frames, id, Closed);
    case TokenExpired(id) => FamilyAfter(s.frames, id, Renewing);
    case Renewed(id, replay) =>
      FamilyAfter(s.frames, id, Closed);
      FamilyAfter(s.frames, id, Retrying);
    case Refused(id) => FamilyAfter(s.frames, id, Closed);
    case Retry(id, child) =>
      if id in s.frames && s.frames[id].phase.Retrying? && child !in s.frames {
        FamilyRetry(s.frames, id, child);
      }
    case Resume(id) => FamilyAfter(s.frames, id, Closed);
  }

  lemma FamilyAfter(frames: map<Id, Frame>, id: Id, phase: Phase)
    requires Family(frames)
    ensures
      id in frames && (phase.Closed? || (!frames[id].isRetry && !frames[id].phase.Closed? && !frames[id].phase.Awaiting?)) ==>
      Family(frames[id := frames[id].(phase := phase)])
  {
    if id in frames && (phase.Closed? || (!frames[id].isRetry && !frames[id].phase.Closed? && !frames[id].phase.Awaiting?)) {
      FamilyMoved(frames, id, phase);
    }
  }

  lemma {:induction false} RunKeepsInv(s: State, steps: seq<Step>)
    requires Inv(s)
    ensures Inv(Run(s, steps))
    decreases |steps|
  {
    if steps != [] {
      NextKeepsCount(s, steps[0]);
      NextKeepsRegistered(s, steps[0]);
      NextKeepsFamily(s, steps[0]);
      RunKeepsInv(Next(s, steps[0]), steps[1..]);
    }
  }

  lemma ReachableInv(steps: seq<Step>)
    ensures Inv(Run(Initial, steps))
  {
    assert forall api :: OpenFrames(Initial.frames, api) == {};
    RunKeepsInv(Initial, steps);
  }

  // ---------------------------------------------------------------------------------------
  // Main results
  // ---------------------------------------------------------------------------------------

  /** In every run `activeRequests` is the number of open frames, and no `finally` meets a zero. */
  lemma ActiveRequestsCountOpenFrames(steps: seq<Step>, api: string)
    ensures var s := Run(Initial, steps);
      && Active(s, api) == |OpenFrames(s.frames, api)|
      && forall id :: id in OpenFrames(s.frames, api) ==> Active(s, api) - 1 >= 0
  {
    ReachableInv(steps);
    var s := Run(Initial, steps);
    forall id | id in OpenFrames(s.frames, api)
      ensures Active(s, api) >= 1
    {
      CountFinished(s, id);
    }
  }

  /** When the last frame has closed, no controller is left behind. */
  lemma NoControllerLeaks(steps: seq<Step>)
    requires forall api :: OpenFrames(Run(Initial, steps).frames, api) == {}
    ensures Run(Initial, steps).controllers == map[]
  {
    ReachableInv(steps);
    var s := Run(Initial, steps);
    forall k | k in s.controllers
      ensures s.controllers[k] in OpenFrames(s.frames, s.frames[s.controllers[k]].api)
    {
    }
    assert s.controllers.Keys == {};
  }

  /** The step opens a frame on the key. */
  predicate OpensOn(s: State, step: Step, key: string) {
    (step.Call? && step.key == key) || (step.Retry? && step.id in s.frames && s.frames[step.id].key == key)
  }

  /**
   A controller is dropped from the map only by `cancelRequest` on its key, by a newer frame on its
   key, or when its own frame closes: the end of an older request never evicts a newer one.
   */
  lemma OnlyItsOwnFrameEvicts(steps: seq<Step>, step: Step, key: string)
    requires var s := Run(Initial, steps);
      key in s.controllers && (key !in Next(s, step).controllers || Next(s, step).controllers[key] != s.controllers[key])
    ensures var s := Run(Initial, steps);
      var id := s.controllers[key];
      || step == Cancel(key)
      || OpensOn(s, step, key)
      || (id in s.frames && !s.frames[id].phase.Closed? && Next(s, step).frames[id].phase.Closed?)
  {
    ReachableInv(steps);
    FramesStay(Run(Initial, steps), step);
  }

  lemma FramesStay(s: State, step: Step)
    ensures s.frames.Keys <= Next(s, step).frames.Keys
  {
  }

  predicate Live(s: State, id: Id) {
    id in s.frames && s.frames[id].phase.InFlight? && id !in s.aborted
  }

  /** At most one request of each key is in flight without having been aborted. */
  ghost predicate Sole(s: State) {
    forall i, j :: Live(s, i) && Live(s, j) && s.frames[i].key == s.frames[j].key ==> i == j
  }

  /** ... because it holds the controller of its key. */
  ghost predicate LiveIsRegistered(s: State) {
    && (forall id :: Live(s, id) ==> s.frames[id].key in s.controllers && s.controllers[s.frames[id].key] == id)
    && (forall id :: id in s.frames ==> s.frames[id].cancelPrevious)
  }

  ghost predicate AlwaysCancels(steps: seq<Step>) {
    forall i :: 0 <= i < |steps| && steps[i].Call? ==> steps[i].cancelPrevious
  }

  lemma LiveOpened(s: State, id: Id, frame: Frame)
    requires Registered(s) && LiveIsRegistered(s) && id !in s.frames && frame.cancelPrevious
    ensures LiveIsRegistered(Opened(s, id, frame))
  {
    var t := Opened(s, id, frame);
    assert t.frames == s.frames[id := frame];
    forall j | Live(t, j) && j != id
      ensures t.frames[j].key != frame.key && t.frames[j].key in t.controllers && t.controllers[t.frames[j].key] == j
    {
      assert Live(s, j);
    }
  }

  lemma LiveCancelled(s: State, key: string)
    requires LiveIsRegistered(s)
    ensures LiveIsRegistered(Cancelled(s, key))
  {
    var t := Cancelled(s, key);
    forall j | Live(t, j)
      ensures t.frames[j].key in t.controllers && t.controllers[t.frames[j].key] == j
    {
      assert Live(s, j);
    }
  }

  lemma LiveFinished(s: State, id: Id)
    requires LiveIsRegistered(s) && id in s.frames
    ensures LiveIsRegistered(Finished(s, id))
  {
    var t := Finished(s, id);
    forall j | Live(t, j)
      ensures t.frames[j].key in t.controllers && t.controllers[t.frames[j].key] == j
    {
      assert Live(s, j) && j != id;
    }
  }

  lemma LiveMoved(s: State, id: Id, phase: Phase)
    requires LiveIsRegistered(s) && id in s.frames && !phase.InFlight?
    ensures LiveIsRegistered(To(s, id, phase))
  {
    var t := To(s, id, phase);
    forall j | Live(t, j)
      ensures Live(s, j) && t.frames[j].key == s.frames[j].key
    {
    }
  }

  lemma NextKeepsLive(s: State, step: Step)
    requires Registered(s) && LiveIsRegistered(s) && (step.Call? ==> step.cancelPrevious)
    ensures LiveIsRegistered(Next(s, step))
  {
    match step
    case Cancel(key) => LiveCancelled(s, key);
    case Call(id, api, key, cancelPrevious, isRetry) =>
      if id !in s.frames {
        LiveOpened(s, id, Frame(api, key, cancelPrevious, isRetry, None, InFlight));
      }
    case Settle(id) => LiveAfter(s, id);
    case TokenExpired(id) => LiveAfter(s, id);
    case Renewed(id, replay) => LiveAfter(s, id);
    case Refused(id) => LiveAfter(s, id);
    case Retry(id, child) =>
      if id in s.frames && child !in s.frames {
        var frame := s.frames[id].(isRetry := true, parent := Some(id), phase := InFlight);
        LiveOpened(s, child, frame);
        LiveMoved(Opened(s, child, frame), id, Awaiting(child));
      }
    case Resume(id) => LiveAfter(s, id);
  }

  lemma LiveAfter(s: State, id: Id)
    requires LiveIsRegistered(s)
    ensures id in s.frames ==> LiveIsRegistered(Finished(s, id)) && LiveIsRegistered(To(s, id, Renewing)) && LiveIsRegistered(To(s, id, Retrying))
  {
    if id in s.frames {
      LiveFinished(s, id);
      LiveMoved(s, id, Renewing);
      LiveMoved(s, id, Retrying);
    }
  }

  lemma {:induction false} RunKeepsLive(s: State, steps: seq<Step>)
    requires Registered(s) && LiveIsRegistered(s) && AlwaysCancels(steps)
    ensures LiveIsRegistered(Run(s, steps))
    decreases |steps|
  {
    if steps != [] {
      NextKeepsRegistered(s, steps[0]);
      NextKeepsLive(s, steps[0]);
      assert forall i :: 0 <= i < |steps[1..]| ==> steps[1..][i] == steps[i + 1];
      RunKeepsLive(Next(s, steps[0]), steps[1..]);
    }
  }

  /** When every call uses `cancelPrevious`, each key has at most one live request at any time. */
  lemma OneLiveRequestPerKey(steps: seq<Step>)
    requires AlwaysCancels(steps)
    ensures Sole(Run(Initial, steps))
  {
    RunKeepsLive(Initial, steps);
  }

  /** One call without it breaks this exactly when a live request of the key is there. */
  lemma KeepsSoleIff(s: State, id: Id, frame: Frame)
    requires Registered(s) && LiveIsRegistered(s) && id !in s.frames && frame.phase.InFlight?
    ensures Sole(Opened(s, id, frame)) <==> frame.cancelPrevious || forall j :: Live(s, j) ==> s.frames[j].key != frame.key
  {
    var t := Opened(s, id, frame);
    assert t.frames == s.frames[id := frame];
    assert Live(t, id);
    if frame.cancelPrevious {
      LiveOpened(s, id, frame);
    } else {
      assert forall j :: j != id ==> (Live(t, j) <==> Live(s, j));
    }
  }

  /** A call makes at most two requests: one retry at most, and a retry is never retried. */
  lemma RetriesAtMostOnce(steps: seq<Step>, call: Id, c: Id, d: Id)
    requires var s := Run(Initial, steps);
      && call in s.frames && c in s.frames && d in s.frames
      && s.frames[c].parent == Some(call)
    ensures var s := Run(Initial, steps);
      && (s.frames[d].parent == Some(call) ==> d == c)
      && s.frames[d].parent != Some(c)
  {
    ReachableInv(steps);
  }

  // ---------------------------------------------------------------------------------------
  // Who aborts whom
  // ---------------------------------------------------------------------------------------

  /** The controller registered under the key is this frame's. */
  predicate Holds(s: State, key: string, id: Id) {
    key in s.controllers && s.controllers[key] == id
  }

  /** `cancelRequest` on its key, a cancelling call on its key, or a cancelling retry on its key. */
  predicate Aborts(s: State, step: Step, id: Id) {
    match step
    case Cancel(key) => Holds(s, key, id)
    case Call(new_, _, key, cancelPrevious, _) => new_ !in s.frames && cancelPrevious && Holds(s, key, id)
    case Retry(old_, child) =>
      && old_ in s.frames && s.frames[old_].phase.Retrying? && child !in s.frames
      && s.frames[old_].cancelPrevious && Holds(s, s.frames[old_].key, id)
    case _ => false
  }

  lemma NewlyAbortedIff(s: State, step: Step, id: Id)
    requires Registered(s)
    ensures id !in s.aborted && id in Next(s, step).aborted <==> Aborts(s, step, id)
  {
  }

  lemma {:induction false} RunMore(s: State, steps: seq<Step>, step: Step)
    ensures Run(s, steps + [step]) == Next(Run(s, steps), step)
    decreases |steps|
  {
    if steps == [] {
      assert [step][1..] == [] && steps + [step] == [step];
      assert Run(s, [step]) == Run(Next(s, step), []);
    } else {
      assert (steps + [step])[1..] == steps[1..] + [step];
      RunMore(Next(s, steps[0]), steps[1..], step);
    }
  }

  /** Over every run: an aborted frame held the controller of its key when one of these came. */
  lemma {:induction false} AbortedOnlyBy(steps: seq<Step>, id: Id) returns (i: nat)
    requires id in Run(Initial, steps).aborted
    ensures i < |steps| && Aborts(Run(Initial, steps[..i]), steps[i], id)
    decreases |steps|
  {
    i := 0;
    if steps != [] {
      var n := |steps| - 1;
      RunMore(Initial, steps[..n], steps[n]);
      assert steps == steps[..n] + [steps[n]];
      ReachableInv(steps[..n]);
      NewlyAbortedIff(Run(Initial, steps[..n]), steps[n], id);
      if id in Run(Initial, steps[..n]).aborted {
        i := AbortedOnlyBy(steps[..n], id);
        assert steps[..n][..i] == steps[..i];
      } else {
        i := n;
      }
    }
  }

  /**
   Exactly when a retry aborts another call: it cancels, and the controller of its key is no
   longer its own, because a newer frame has registered there.
   */
  lemma RetryAbortsAnotherIff(steps: seq<Step>, id: Id, child: Id)
    requires var s := Run(Initial, steps); id in s.frames && s.frames[id].phase.Retrying? && child !in s.frames
    ensures var s := Run(Initial, steps);
      var key := s.frames[id].key;
      (exists other :: other != id && other !in s.aborted && other in Next(s, Retry(id, child)).aborted) <==>
      s.frames[id].cancelPrevious && key in s.controllers && s.controllers[key] != id
  {
    ReachableInv(steps);
    var s := Run(Initial, steps);
    var key := s.frames[id].key;
    forall other
      ensures other !in s.aborted && other in Next(s, Retry(id, child)).aborted <==> s.frames[id].cancelPrevious && Holds(s, key, other)
    {
      NewlyAbortedIff(s, Retry(id, child), other);
    }
    if s.frames[id].cancelPrevious && key in s.controllers && s.controllers[key] != id {
      assert Holds(s, key, s.controllers[key]);
    }
  }

  /** What is not promised: the retry of an older call aborts the newer call of its key. */
  lemma RetryAbortsNewerCall(key: string) returns (steps: seq<Step>)
    ensures var s := Run(Initial, steps);
      && "new" in s.frames && s.frames["new"].phase.InFlight? && "new" in s.aborted
      && Live(s, "retry") && s.frames["retry"].parent == Some("old")
  {
    var a, b := Call("old", "api", key, true, false), Call("new", "api", key, true, false);
    steps := [a] + ([TokenExpired("old")] + ([b] + ([Renewed("old", true)] + ([Retry("old", "retry")] + []))));
    OneStep(Initial, a, [TokenExpired("old")] + ([b] + ([Renewed("old", true)] + ([Retry("old", "retry")] + []))));
    var s1 := Next(Initial, a);
    OneStep(s1, TokenExpired("old"), [b] + ([Renewed("old", true)] + ([Retry("old", "retry")] + [])));
    var s2 := Next(s1, TokenExpired("old"));
    OneStep(s2, b, [Renewed("old", true)] + ([Retry("old", "retry")] + []));
    var s3 := Next(s2, b);
    OneStep(s3, Renewed("old", true), [Retry("old", "retry")] + []);
    var s4 := Next(s3, Renewed("old", true));
    OneStep(s4, Retry("old", "retry"), []);
    assert s4.controllers[key] == "new";
  }

  lemma OneStep(s: State, step: Step, rest: seq<Step>)
    ensures Run(s, [step] + rest) == Run(Next(s, step), rest)
  {
    assert ([step] + rest)[1..] == rest;
  }

  // ---------------------------------------------------------------------------------------
  // The composable, statement by statement
  // ---------------------------------------------------------------------------------------

  class Client {
    var requestControllers: map<string, Id>
    var activeRequests: map<string, int>
    var aborted: set<Id>
    var frames: map<Id, Frame>

    ghost function Snapshot(): State
      reads this
    {
      State(requestControllers, aborted, activeRequests, frames)
    }

    method CancelRequest(key: string)
      modifies this
      ensures Snapshot() == Next(old(Snapshot()), Cancel(key))
      ensures key !in requestControllers
      ensures forall k :: k != key ==> (k in requestControllers <==> k in old(requestControllers))
      ensures forall k :: k in requestControllers ==> requestControllers[k] == old(requestControllers)[k]
      ensures aborted == old(aborted) + if key in old(requestControllers) then {old(requestControllers)[key]} else {}
      ensures activeRequests == old(activeRequests) && frames == old(frames)
    {
      if key in requestControllers {
        aborted := aborted + {requestControllers[key]};
        requestControllers := requestControllers - {key};
      }
    }

    /** From the cancellation to `$fetch`; the fresh controller is named by its frame. */
    method Begin(id: Id, frame: Frame)
      requires id !in frames
      modifies this
      ensures Snapshot() == Opened(old(Snapshot()), id, frame)
      ensures frame.key in requestControllers && requestControllers[frame.key] == id
      ensures frame.key in old(requestControllers) && frame.cancelPrevious ==> old(requestControllers)[frame.key] in aborted
      ensures !frame.cancelPrevious ==> aborted == old(aborted)
      ensures forall api :: Active(Snapshot(), api) == old(Active(Snapshot(), api)) + if api == frame.api then 1 else 0
    {
      if frame.cancelPrevious {
        CancelRequest(frame.key);
      }
      requestControllers := requestControllers[frame.key := id];
      var active := if frame.api in activeRequests then activeRequests[frame.api] else 0;
      activeRequests := activeRequests[frame.api := active + 1];
      frames := frames[id := frame];
    }

    /** The `finally` block. */
    method Finally(id: Id)
      requires id in frames
      modifies this
      ensures Snapshot() == Finished(old(Snapshot()), id)
      ensures frames[id].phase.Closed? && aborted == old(aborted)
      ensures forall k :: k in old(requestControllers) && old(requestControllers)[k] != id ==>
        k in requestControllers && requestControllers[k] == old(requestControllers)[k]
      ensures frames[id].key !in requestControllers || requestControllers[frames[id].key] != id
      ensures old(Active(Snapshot(), frames[id].api)) >= 1 ==>
        Active(Snapshot(), frames[id].api) == old(Active(Snapshot(), frames[id].api)) - 1
    {
      var frame := frames[id];
      if frame.key in requestControllers && requestControllers[frame.key] == id {
        requestControllers := requestControllers - {frame.key};
      }
      var active := if frame.api in activeRequests then activeRequests[frame.api] else 0;
      activeRequests := activeRequests[frame.api := if 0 > active - 1 then 0 else active - 1];
      frames := frames[id := frame.(phase := Closed)];
    }

    /** `fetch` called by a user of the composable, up to its first suspension past the checks. */
    method Fetch(id: Id, api: string, key: string, cancelPrevious: bool, isRetry: bool)
      requires id !in frames
      modifies this
      ensures Snapshot() == Next(old(Snapshot()), Call(id, api, key, cancelPrevious, isRetry))
    {
      Begin(id, Frame(api, key, cancelPrevious, isRetry, None, InFlight));
    }

    /** The response arrives: `expired` is a 401 with ACCESS_TOKEN_EXPIRED outside the auth endpoints. */
    method Respond(id: Id, expired: bool)
      requires id in frames && frames[id].phase.InFlight?
      modifies this
      ensures Snapshot() == Next(old(Snapshot()), if expired && !old(frames[id]).isRetry then TokenExpired(id) else Settle(id))
    {
      if expired && !frames[id].isRetry {
        frames := frames[id := frames[id].(phase := Renewing)];
      } else {
        Finally(id);
      }
    }

    /** `renewAccess` settles. */
    method Renew(id: Id, replay: bool)
      requires id in frames && frames[id].phase.Renewing?
      modifies this
      ensures Snapshot() == Next(old(Snapshot()), Renewed(id, replay))
    {
      if replay {
        frames := frames[id := frames[id].(phase := Retrying)];
      } else {
        Finally(id);
      }
    }

    /** The session checks of the inner `fetch` pass, or throw. */
    method FetchAgain(id: Id, child: Id, checked: bool)
      requires id in frames && frames[id].phase.Retrying? && child !in frames
      modifies this
      ensures Snapshot() == Next(old(Snapshot()), if checked then Retry(id, child) else Refused(id))
    {
      if checked {
        Begin(child, frames[id].(isRetry := true, parent := Some(id), phase := InFlight));
        frames := frames[id := frames[id].(phase := Awaiting(child))];
      } else {
        Finally(id);
      }
    }

    /** The inner `fetch` has settled. */
    method Return(id: Id)
      requires id in frames && frames[id].phase.Awaiting? && frames[id].phase.child in frames
      requires frames[frames[id].phase.child].phase.Closed?
      modifies this
      ensures Snapshot() == Next(old(Snapshot()), Resume(id))
    {
      Finally(id);
    }
  }
}
