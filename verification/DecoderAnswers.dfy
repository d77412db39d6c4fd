/** How the GPU video decoder answers each Decode, and what each event does to its mode and to the bitstream
    buffers, over whole runs. */
module DecoderAnswers {
  import opened Trees
  import opened DecoderStates
  import opened DecoderRuns

  // ---- the mode ----

  /** The events that end in an error while the accelerator is alive: its own, textures that cannot be created,
      and numbers it does not have. */
  predicate IsError(s: State, e: Event) {
    || e.Failure?
    || (e.Provide? && e.textures == None)
    || (e.Decoded? && e.picture !in s.assignedBuffers)
    || (e.EndOfBitstream? && e.buffer !in s.inDecoder)
  }

  /** A Decode that changes the mode: an end of stream starts draining, any other buffer ends the drained mode.
      Ready frames come first once drained, and a draining decoder just waits. */
  predicate Advances(s: State, e: Event) {
    && e.DecodeCall? && s.vda && (s.mode == Normal || (s.mode == DecoderDrained && s.ready == []))
  }

  /** The mode, whether the accelerator is alive, and the bitstream buffers. */
  datatype Device = Device(mode: Mode, vda: bool, inDecoder: set<nat>, nextBitstream: nat)

  function DeviceOf(s: State): Device {
    Device(s.mode, s.vda, s.inDecoder, s.nextBitstream)
  }

  lemma DeliverDevice(s: State)
    requires s.ready != []
    ensures DeviceOf(Deliver(s)) == DeviceOf(s)
  {
  }

  lemma EnqueueDevice(s: State, picture: Option<nat>)
    ensures DeviceOf(EnqueueNew(s, picture)) == DeviceOf(s)
  {
    var s1, f := Numbered(s), Frame(picture, s.serial);
    if s1.resetCb == None { DeliverDevice(s1.(ready := s1.ready + [f])); }
  }

  lemma EndPendingDevice(s: State)
    ensures DeviceOf(EndPending(s)) == DeviceOf(s)
  {
    EnqueueDevice(s, None);
  }

  lemma ResetDevice(s: State, closure: nat, aborted: bool)
    ensures DeviceOf(Reset(s, closure, aborted)) == DeviceOf(s)
  {
    EndPendingDevice(ClearReady(s));
  }

  lemma StopDevice(s: State, closure: nat)
    ensures DeviceOf(Stop(s, closure)) == DeviceOf(s).(vda := false)
  {
    EndPendingDevice(EndVDA(s));
  }

  lemma ErrorDevice(s: State)
    ensures DeviceOf(NotifyError(s)) == if s.vda then DeviceOf(s).(mode := Error, vda := false) else DeviceOf(s)
  {
  }

  lemma PictureDevice(s: State, id: nat, textures: Option<seq<nat>>)
    ensures DeviceOf(ReusePictureBuffer(s, id)) == DeviceOf(s) && DeviceOf(DismissPictureBuffer(s, id)) == DeviceOf(s)
    ensures textures.Some? ==> DeviceOf(ProvidePictureBuffers(s, textures)) == DeviceOf(s)
  {
  }

  lemma ReadyDevice(s: State, id: nat)
    requires id in s.assignedBuffers
    ensures DeviceOf(PictureReady(s, id)) == DeviceOf(s)
  {
    EnqueueDevice(Taken(s, id), Some(id));
  }

  lemma DoneDevice(s: State, id: nat)
    ensures DeviceOf(NotifyResetDone(s)) == DeviceOf(s)
    ensures DeviceOf(NotifyFlushDone(s)) == DeviceOf(s).(mode := DecoderDrained)
    ensures id in s.inDecoder ==>
      DeviceOf(NotifyEndOfBitstreamBuffer(s, id)) == DeviceOf(s).(inDecoder := s.inDecoder - {id})
  {
    EndPendingDevice(RunResetCb(s));
    EnqueueDevice(s.(mode := DecoderDrained), None);
  }

  lemma AnswerDevice(s: State)
    requires s.decodeCb.Some?
    ensures DeviceOf(TriggerIfReady(s)) == DeviceOf(s) && DeviceOf(DecoderStates.Submitted(s)) == DeviceOf(s)
  {
  }

  lemma SubmitDevice(s: State, endOfStream: bool, shm: bool)
    requires s.decodeCb.Some?
    ensures var d := DeviceOf(s);
      DeviceOf(Submit(s, endOfStream, shm)) ==
        if endOfStream then d.(mode := DrainingDecoder)
        else if !shm then d.(mode := Normal)
        else Device(Normal, s.vda, s.inDecoder + {s.nextBitstream}, (s.nextBitstream + 1) % 0x4000_0000)
  {
    AnswerDevice(s.(mode := DrainingDecoder));
    AnswerDevice(WithBuffer(s.(mode := Normal)));
  }

  lemma InModeDevice(s: State, endOfStream: bool, shm: bool)
    requires s.decodeCb.Some?
    ensures DeviceOf(InMode(s, endOfStream, shm)) ==
      if (s.mode == DecoderDrained && s.ready != []) || s.mode == DrainingDecoder then DeviceOf(s)
      else DeviceOf(Submit(s, endOfStream, shm))
  {
    if s.ready != [] { AnswerDevice(s); }
  }

  /** What a Decode leaves: unless it advances, the same device. */
  lemma DecodeDevice(s: State, endOfStream: bool, shm: bool)
    ensures var d, e := DeviceOf(s), DecodeCall(endOfStream, shm);
      DeviceOf(Decode(s, endOfStream, shm)) ==
        if !Advances(s, e) then d
        else if endOfStream then d.(mode := DrainingDecoder)
        else if !shm then d.(mode := Normal)
        else Device(Normal, s.vda, s.inDecoder + {s.nextBitstream}, (s.nextBitstream + 1) % 0x4000_0000)
  {
    if s.mode == Error || !s.vda {
      assert Decode(s, endOfStream, shm) == Respond(Ask(s), DecodeError, None);
    } else {
      assert Decode(s, endOfStream, shm) == InMode(Ask(s), endOfStream, shm);
      InModeDevice(Ask(s), endOfStream, shm);
      SubmitDevice(Ask(s), endOfStream, shm);
    }
  }

  /** The device after any event in any state. */
  lemma DeviceStep(s: State, e: Event)
    requires e.DeferredReset? ==> s.deferred != []
    ensures var d := DeviceOf(s);
      DeviceOf(Next(s, e)) ==
        if e.DecodeCall? then DeviceOf(Decode(s, e.endOfStream, e.shm))
        else if e.FlushDone? then d.(mode := DecoderDrained)
        else if e.StopCall? then d.(vda := false)
        else if s.vda && IsError(s, e) then d.(mode := Error, vda := false)
        else if e.EndOfBitstream? then d.(inDecoder := s.inDecoder - {e.buffer})
        else d
  {
    match e
    case DecodeCall(endOfStream, shm) =>
    case ResetCall(closure, aborted) => ResetDevice(s, closure, aborted);
    case DeferredReset(aborted) => ResetDevice(s.(deferred := s.deferred[1..]), s.deferred[0], aborted);
    case StopCall(closure) => StopDevice(s, closure);
    case Released(id) => PictureDevice(s, id, None);
    case Provide(textures) => if textures == None { ErrorDevice(s); } else { PictureDevice(s, 0, textures); }
    case Dismiss(id) => PictureDevice(s, id, None);
    case Decoded(id) => if id in s.assignedBuffers { ReadyDevice(s, id); } else { ErrorDevice(s); }
    case EndOfBitstream(id) => if id in s.inDecoder { DoneDevice(s, id); } else { ErrorDevice(s); }
    case FlushDone => DoneDevice(s, 0);
    case ResetDone => DoneDevice(s, 0);
    case Failure => ErrorDevice(s);
  }

  /** The mode after any event. */
  function ModeAfter(s: State, e: Event): Mode {
    if Advances(s, e) then if e.endOfStream then DrainingDecoder else Normal
    else if e.FlushDone? then DecoderDrained
    else if s.vda && IsError(s, e) then Error
    else s.mode
  }

  /** The mode after any event in any state, and whether the accelerator is still alive. */
  lemma ModeStep(s: State, e: Event)
    requires e.DeferredReset? ==> s.deferred != []
    ensures Next(s, e).mode == ModeAfter(s, e)
    ensures Next(s, e).vda <==> s.vda && !e.StopCall? && !IsError(s, e)
  {
    DeviceStep(s, e);
    if e.DecodeCall? { DecodeDevice(s, e.endOfStream, e.shm); }
  }

  // ---- bitstream buffers ----

  /** A Decode that hands its buffer to the accelerator. */
  predicate Submits(s: State, e: Event) {
    Advances(s, e) && !e.endOfStream && e.shm
  }

  /** The buffers with the accelerator after any event. */
  function BuffersAfter(s: State, e: Event): set<nat> {
    if Submits(s, e) then s.inDecoder + {s.nextBitstream}
    else if e.EndOfBitstream? then s.inDecoder - {e.buffer}
    else s.inDecoder
  }

  lemma BufferStep(s: State, e: Event)
    requires e.DeferredReset? ==> s.deferred != []
    ensures Next(s, e).inDecoder == BuffersAfter(s, e)
    ensures Next(s, e).nextBitstream == if Submits(s, e) then (s.nextBitstream + 1) % 0x4000_0000 else s.nextBitstream
  {
    DeviceStep(s, e);
    if e.DecodeCall? { DecodeDevice(s, e.endOfStream, e.shm); }
  }

  /** How many of the first `i` events hand over a buffer. */
  ghost function HandedOver(states: seq<State>, events: seq<Event>, i: nat): nat
    requires i <= |events| && i <= |states|
  {
    if i == 0 then 0 else HandedOver(states, events, i - 1) + if Submits(states[i - 1], events[i - 1]) then 1 else 0
  }

  lemma NumberStep(states: seq<State>, events: seq<Event>, i: nat)
    requires Run(states, events) && i < |events|
    ensures states[i + 1].nextBitstream ==
      if Submits(states[i], events[i]) then (states[i].nextBitstream + 1) % 0x4000_0000 else states[i].nextBitstream
  {
    assert RunStep(states, events, i);
    BufferStep(states[i], events[i]);
  }

  /** In every run the buffers handed over are numbered in turn, modulo 2^30. */
  lemma {:induction false} BuffersNumbered(states: seq<State>, events: seq<Event>, i: nat)
    requires Run(states, events) && i <= |events|
    ensures states[i].nextBitstream == HandedOver(states, events, i) % 0x4000_0000
    decreases i
  {
    if i > 0 {
      BuffersNumbered(states, events, i - 1);
      NumberStep(states, events, i - 1);
    }
  }

  // ---- what a Decode is answered ----

  /** The answer to a Decode in any mode; None while it stays pending. */
  function DecodeAnswer(s: State, endOfStream: bool, shm: bool): Option<(Status, Option<Frame>)> {
    if s.mode == Error || !s.vda then Some((DecodeError, None))
    else if s.mode == DrainingDecoder then None
    else if s.mode == DecoderDrained && s.ready != [] then Some((Ok, Some(s.ready[0])))
    else if !endOfStream && !shm then Some((DecodeError, None))
    else if s.ready != [] then Some((Ok, Some(s.ready[0])))
    else if !endOfStream && |s.inDecoder + {s.nextBitstream}| < 4 then Some((NotEnoughData, None))
    else None
  }

  /** What is answered to the Decode numbered `request`, and that it is no longer pending. */
  ghost predicate Answered(s: State, r: State, request: nat, status: Status, frame: Option<Frame>) {
    r.answers == s.answers + [Answer(request, status, frame)] && r.decodeCb == None
  }

  lemma DeliverAnswers(s: State)
    requires s.decodeCb.Some? && s.ready != []
    ensures Answered(s, Deliver(s), s.decodeCb.value, Ok, Some(s.ready[0])) && Deliver(s).ready == s.ready[1..]
  {
  }

  /** What a Decode does: it is answered as above, and a frame handed out is no longer ready. */
  ghost predicate DecodeDone(s: State, endOfStream: bool, shm: bool, r: State) {
    var a := DecodeAnswer(s, endOfStream, shm);
    && r.requests == s.requests + 1
    && (a == None ==> r.answers == s.answers && r.decodeCb == Some(s.requests) && r.ready == s.ready)
    && (a.Some? ==>
          && Answered(s, r, s.requests, a.value.0, a.value.1)
          && r.ready == if a.value.1.Some? then s.ready[1..] else s.ready)
  }

  lemma DecodeIsAnswered(s: State, endOfStream: bool, shm: bool)
    requires ClientMay(s, DecodeCall(endOfStream, shm))
    ensures DecodeDone(s, endOfStream, shm, Next(s, DecodeCall(endOfStream, shm)))
  {
    if s.mode != Error && s.vda {
      InModeAnswers(s, endOfStream, shm);
    } else {
      assert Next(s, DecodeCall(endOfStream, shm)) == Respond(Ask(s), DecodeError, None);
    }
  }

  lemma InModeAnswers(s: State, endOfStream: bool, shm: bool)
    requires s.mode != Error && s.vda && s.resetCb == None
    ensures DecodeDone(s, endOfStream, shm, InMode(Ask(s), endOfStream, shm))
  {
    if s.mode == DecoderDrained && s.ready != [] {
      DeliverAnswers(Ask(s));
    } else if s.mode != DrainingDecoder {
      SubmitAnswers(Ask(s), endOfStream, shm);
    }
  }

  lemma SubmitAnswers(s: State, endOfStream: bool, shm: bool)
    requires s.decodeCb.Some? && s.resetCb == None
    ensures var r, request := Submit(s, endOfStream, shm), s.decodeCb.value;
      && r.requests == s.requests
      && (if !endOfStream && !shm then Answered(s, r, request, DecodeError, None) && r.ready == s.ready
          else if s.ready != [] then Answered(s, r, request, Ok, Some(s.ready[0])) && r.ready == s.ready[1..]
          else if !endOfStream && |s.inDecoder + {s.nextBitstream}| < 4 then
            Answered(s, r, request, NotEnoughData, None) && r.ready == s.ready
          else r.answers == s.answers && r.decodeCb == s.decodeCb && r.ready == s.ready)
  {
    if s.ready != [] {
      DeliverAnswers(s.(mode := DrainingDecoder));
      DeliverAnswers(WithBuffer(s.(mode := Normal)));
    }
  }

  /** The ready frames with a new one behind them. */
  function Queue(s: State, picture: Option<nat>): (q: seq<Frame>)
    ensures q != []
  {
    s.ready + [Frame(picture, s.serial)]
  }

  lemma EnqueueAnswers(s: State, picture: Option<nat>)
    requires s.decodeCb.Some? && s.resetCb == None
    ensures var r, q := EnqueueNew(s, picture), Queue(s, picture);
      Answered(s, r, s.decodeCb.value, Ok, Some(q[0])) && r.ready == q[1..]
  {
    DeliverAnswers(Numbered(s).(ready := Queue(s, picture)));
  }

  /** A reset that is not put off. */
  predicate Resets(s: State, e: Event) {
    && (e.ResetCall? || e.DeferredReset?)
    && s.vda && (s.mode != DrainingDecoder || e.aborted)
  }

  /** What answers a Decode that is pending: a decoded picture, the end of the flush and Stop, each with the
      first frame ready; a reset, with an empty frame; an error; and, outside draining mode, a buffer given back
      when fewer than four are left. */
  ghost predicate PendingDone(s: State, e: Event, r: State)
    requires s.decodeCb.Some?
  {
    var request := s.decodeCb.value;
    if e.Decoded? then
      var q := Queue(s, Some(e.picture)); Answered(s, r, request, Ok, Some(q[0])) && r.ready == q[1..]
    else if e.FlushDone? || e.StopCall? then
      var q := Queue(s, None); Answered(s, r, request, Ok, Some(q[0])) && r.ready == q[1..]
    else if Resets(s, e) then
      Answered(s, r, request, Ok, Some(Frame(None, s.serial))) && r.ready == []
    else if IsError(s, e) then
      Answered(s, r, request, DecodeError, None) && r.ready == s.ready
    else if e.EndOfBitstream? && s.mode != DrainingDecoder && |s.inDecoder - {e.buffer}| < 4 then
      Answered(s, r, request, NotEnoughData, None) && r.ready == s.ready
    else
      r.answers == s.answers && r.decodeCb == s.decodeCb && (r.ready == s.ready || r.ready == [])
  }

  lemma PendingIsAnswered(s: State, e: Event)
    requires Callbacks(s) && Balanced(s) && Legal(s, e) && s.decodeCb.Some?
    ensures PendingDone(s, e, Next(s, e))
  {
    match e
    case DecodeCall(_, _) => assert false;
    case ResetCall(closure, aborted) => PendingAtReset(s, closure, aborted);
    case DeferredReset(aborted) => PendingAtReset(s.(deferred := s.deferred[1..]), s.deferred[0], aborted);
    case StopCall(closure) => EnqueueAnswers(EndVDA(s), None);
    case Decoded(id) => EnqueueAnswers(Taken(s, id), Some(id));
    case FlushDone => EnqueueAnswers(s.(mode := DecoderDrained), None);
    case ResetDone => assert false;
    case EndOfBitstream(id) => PendingAtEnd(s, id);
    case _ => PendingElsewhere(s, e);
  }

  lemma PendingAtReset(s: State, closure: nat, aborted: bool)
    requires s.decodeCb.Some? && s.resetCb == None
    ensures var r := Reset(s, closure, aborted);
      if s.vda && (s.mode != DrainingDecoder || aborted) then
        Answered(s, r, s.decodeCb.value, Ok, Some(Frame(None, s.serial))) && r.ready == []
      else r.answers == s.answers && r.decodeCb == s.decodeCb && (r.ready == s.ready || r.ready == [])
  {
    EnqueueAnswers(ClearReady(s), None);
  }

  lemma PendingAtEnd(s: State, id: nat)
    requires Callbacks(s) && s.decodeCb.Some? && id in s.inDecoder
    ensures PendingDone(s, EndOfBitstream(id), NotifyEndOfBitstreamBuffer(s, id))
  {
  }

  lemma PendingElsewhere(s: State, e: Event)
    requires Legal(s, e) && s.decodeCb.Some?
    requires e.Released? || e.Provide? || e.Dismiss? || e.Failure?
    ensures PendingDone(s, e, Next(s, e))
  {
  }

  lemma EnqueueNothing(s: State, picture: Option<nat>)
    requires s.decodeCb == None
    ensures EnqueueNew(s, picture).answers == s.answers && EnqueueNew(s, picture).decodeCb == None
  {
  }

  lemma ResetNothing(s: State, closure: nat, aborted: bool)
    requires s.decodeCb == None
    ensures Reset(s, closure, aborted).answers == s.answers && Reset(s, closure, aborted).decodeCb == None
  {
  }

  lemma StopNothing(s: State, closure: nat)
    requires s.decodeCb == None
    ensures Stop(s, closure).answers == s.answers && Stop(s, closure).decodeCb == None
  {
  }

  lemma ErrorNothing(s: State)
    requires s.decodeCb == None
    ensures NotifyError(s).answers == s.answers && NotifyError(s).decodeCb == None
  {
  }

  lemma CallbackNothing(s: State, e: Event)
    requires s.decodeCb == None && (e.Released? || e.Dismiss? || e.ResetDone?)
    ensures Next(s, e).answers == s.answers && Next(s, e).decodeCb == None
  {
  }

  /** Without a pending Decode only a Decode is answered. */
  lemma NothingToAnswer(s: State, e: Event)
    requires (e.DeferredReset? ==> s.deferred != []) && s.decodeCb == None && !e.DecodeCall?
    ensures Next(s, e).answers == s.answers && Next(s, e).decodeCb == None
  {
    match e
    case ResetCall(closure, aborted) => ResetNothing(s, closure, aborted);
    case DeferredReset(aborted) => ResetNothing(s.(deferred := s.deferred[1..]), s.deferred[0], aborted);
    case StopCall(closure) => StopNothing(s, closure);
    case Provide(textures) => ErrorNothing(s);
    case Decoded(id) => if id in s.assignedBuffers { EnqueueNothing(Taken(s, id), Some(id)); } else { ErrorNothing(s); }
    case EndOfBitstream(id) => ErrorNothing(s);
    case FlushDone => EnqueueNothing(s.(mode := DecoderDrained), None);
    case Failure => ErrorNothing(s);
    case _ => CallbackNothing(s, e);
  }

  /** What an error does in any state with an accelerator: that ends, its textures are deleted, and the pending
      Decode is answered. */
  lemma ErrorStep(s: State, e: Event)
    requires s.vda && IsError(s, e)
    ensures var r := Next(s, e);
      && r.mode == Error && !r.vda && r.assignedBuffers == map[] && r.ready == s.ready
      && r.deleted == s.deleted + multiset(s.assignedBuffers.Values)
      && (s.decodeCb == None ==> r.answers == s.answers && r.decodeCb == None)
      && (s.decodeCb.Some? ==> Answered(s, r, s.decodeCb.value, DecodeError, None))
  {
    assert Next(s, e) == NotifyError(s);
  }

  /** A Reset drops the ready frames, unless it is put off while a Decode is pending. */
  lemma ResetDropsReady(s: State, e: Event)
    requires Callbacks(s) && ClientMay(s, e) && (e.ResetCall? || e.DeferredReset?)
    ensures Next(s, e).ready ==
      if s.mode == DrainingDecoder && !e.aborted && s.decodeCb.Some? then s.ready else []
  {
    match e
    case ResetCall(closure, aborted) => ResetReady(s, closure, aborted);
    case DeferredReset(aborted) => ResetReady(s.(deferred := s.deferred[1..]), s.deferred[0], aborted);
  }

  lemma ResetReady(s: State, closure: nat, aborted: bool)
    requires s.decodeCb.Some? ==> s.resetCb == None
    ensures Reset(s, closure, aborted).ready ==
      if s.mode == DrainingDecoder && !aborted && s.decodeCb.Some? then s.ready else []
  {
  }

  // ---- over runs ----

  /** A pending Decode has an accelerator, and outside draining mode no frame is ready for it. */
  ghost predicate Quiet(s: State) {
    s.decodeCb.Some? ==> s.vda && (s.mode != DrainingDecoder ==> s.ready == [])
  }

  lemma QuietKept(s: State, e: Event)
    requires Callbacks(s) && Balanced(s) && Legal(s, e) && Quiet(s)
    ensures Quiet(Next(s, e))
  {
    ModeStep(s, e);
    if e.DecodeCall? {
      DecodeIsAnswered(s, e.endOfStream, e.shm);
    } else if s.decodeCb.Some? {
      PendingIsAnswered(s, e);
    } else {
      NothingToAnswer(s, e);
    }
  }

  lemma {:induction false} RunQuiet(states: seq<State>, events: seq<Event>, i: nat)
    requires Run(states, events) && i <= |events|
    ensures Quiet(states[i])
    decreases i
  {
    if i > 0 {
      RunQuiet(states, events, i - 1);
      RunInv(states, events, i - 1);
      assert RunStep(states, events, i - 1);
      QuietKept(states[i - 1], events[i - 1]);
    }
  }

  /** What an answer says of the moment it is given: Ok goes with a frame; NotEnoughData with no frame ready,
      fewer than four buffers in the decoder and no draining; DecodeError with the error mode, with no
      accelerator, or with no shared memory for the buffer. */
  ghost predicate Fits(s: State, e: Event, r: State, a: Answer) {
    && (a.status == Ok <==> a.frame.Some?)
    && (a.status == NotEnoughData ==> r.ready == [] && |r.inDecoder| < 4 && r.mode != DrainingDecoder)
    && (a.status == DecodeError ==> r.mode == Error || !s.vda || (e.DecodeCall? && !e.endOfStream && !e.shm))
  }

  /** In every run an event gives at most one answer, and the answer fits the moment. */
  lemma AnswersFit(states: seq<State>, events: seq<Event>, i: nat)
    requires Run(states, events) && i < |events|
    ensures GivesFitting(states[i], events[i], states[i + 1])
  {
    RunInv(states, events, i);
    RunQuiet(states, events, i);
    assert RunStep(states, events, i);
    AnswerFits(states[i], events[i]);
  }

  ghost predicate GivesFitting(s: State, e: Event, r: State) {
    || r.answers == s.answers
    || (|r.answers| == |s.answers| + 1 && s.answers <= r.answers && Fits(s, e, r, r.answers[|s.answers|]))
  }

  lemma AnswerFits(s: State, e: Event)
    requires Callbacks(s) && Balanced(s) && Quiet(s) && Legal(s, e)
    ensures GivesFitting(s, e, Next(s, e))
  {
    ModeStep(s, e);
    BufferStep(s, e);
    if e.DecodeCall? {
      DecodeIsAnswered(s, e.endOfStream, e.shm);
      DecodeFits(s, e, Next(s, e));
    } else if s.decodeCb.Some? {
      PendingIsAnswered(s, e);
      PendingFits(s, e, Next(s, e));
    } else {
      NothingToAnswer(s, e);
    }
  }

  lemma DecodeFits(s: State, e: Event, r: State)
    requires e.DecodeCall? && DecodeDone(s, e.endOfStream, e.shm, r)
    requires r.mode == ModeAfter(s, e) && r.inDecoder == BuffersAfter(s, e)
    ensures GivesFitting(s, e, r)
  {
  }

  lemma PendingFits(s: State, e: Event, r: State)
    requires !e.DecodeCall? && s.decodeCb.Some? && PendingDone(s, e, r) && Quiet(s)
    requires r.mode == ModeAfter(s, e) && r.inDecoder == BuffersAfter(s, e)
    ensures GivesFitting(s, e, r)
  {
  }

  /** In every run exactly the answers with a frame are Ok. */
  lemma {:induction false} OkIffFrame(states: seq<State>, events: seq<Event>, i: nat)
    requires Run(states, events) && i <= |events|
    ensures forall k :: 0 <= k < |states[i].answers| ==>
      (states[i].answers[k].status == Ok <==> states[i].answers[k].frame.Some?)
    decreases i
  {
    if i > 0 {
      OkIffFrame(states, events, i - 1);
      AnswersFit(states, events, i - 1);
    }
  }

  /** In every run the end of a flush ends draining mode; the Decode that was pending, if any, is answered with
      the first frame in line, the empty frame of the flush being the last. */
  lemma FlushEndsDraining(states: seq<State>, events: seq<Event>, i: nat)
    requires Run(states, events) && i < |events| && events[i].FlushDone?
    ensures var s, r := states[i], states[i + 1];
      && s.mode == DrainingDecoder && r.mode == DecoderDrained && r.decodeCb == None
      && (s.decodeCb.Some? ==>
            var q := s.ready + [Frame(None, s.serial)];
            r.answers == s.answers + [Answer(s.decodeCb.value, Ok, Some(q[0]))] && r.ready == q[1..])
  {
    RunInv(states, events, i);
    assert RunStep(states, events, i);
    ModeStep(states[i], FlushDone);
    if states[i].decodeCb.Some? {
      PendingIsAnswered(states[i], FlushDone);
    } else {
      NothingToAnswer(states[i], FlushDone);
    }
  }
}
