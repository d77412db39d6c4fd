/** The states of the GPU video decoder, and what each call and callback makes of them.

    The accelerator (VDA) and the client act at any time; callbacks that the decoder runs are posted, so they
    do not re-enter it. */
module DecoderStates {
  import opened Trees

  datatype Mode = Normal | DrainingDecoder | DecoderDrained | Error

  datatype Picture = Picture(id: nat, texture: nat)

  /** A decoded picture, or an empty frame, numbered in the order of creation. */
  datatype Frame = Frame(picture: Option<nat>, serial: nat)

  datatype Status = Ok | NotEnoughData | DecodeError

  /** The answer to the Decode call number `request`. */
  datatype Answer = Answer(request: nat, status: Status, frame: Option<Frame>)

  datatype State = State(
    mode: Mode,
    vda: bool,                        // the accelerator is alive
    available: int,                   // available_pictures_
    assignedBuffers: map<nat, Picture>,
    atDisplay: set<nat>,
    dismissed: map<nat, Picture>,
    ready: seq<Frame>,                // ready_video_frames_
    decodeCb: Option<nat>,            // pending_decode_cb_
    resetCb: Option<nat>,             // pending_reset_cb_
    inDecoder: set<nat>,              // bitstream_buffers_in_decoder_
    nextPicture: nat,
    nextBitstream: nat,
    // what has been done so far
    requests: nat,                    // Decode calls
    serial: nat,                      // frames created
    answers: seq<Answer>,             // answers to Decode calls
    deferred: seq<nat>,               // Reset calls posted to be tried again
    resets: seq<nat>,                 // Reset callbacks run or posted
    stops: seq<nat>,                  // Stop callbacks run
    deleted: multiset<Picture>,       // textures deleted
    failed: bool,                     // a CHECK has failed
    stopped: bool,
    // the surroundings
    recorded: map<nat, Picture>,      // all pictures ever assigned
    owned: set<nat>,                  // the pictures the accelerator may decode into
    held: set<nat>)                   // pictures whose frame has left the decoder and is not yet released

  const MAX_IN_FLIGHT := 4

  function Pictures(frames: seq<Frame>): set<nat> {
    set f | f in frames && f.picture.Some? :: f.picture.value
  }

  function PictureOf(f: Frame): set<nat> {
    if f.picture.Some? then {f.picture.value} else {}
  }

  function Initial(vda: bool): State {
    State(Normal, vda, 0, map[], {}, map[], [], None, None, {}, 0, 0,
          0, 0, [], [], [], [], multiset{}, false, false, map[], {}, {})
  }

  /** Everything about pictures and their textures. */
  datatype Textures = Textures(assignedBuffers: map<nat, Picture>, dismissed: map<nat, Picture>,
      deleted: multiset<Picture>,
                               recorded: map<nat, Picture>, nextPicture: nat)

  function TexturesOf(s: State): Textures {
    Textures(s.assignedBuffers, s.dismissed, s.deleted, s.recorded, s.nextPicture)
  }

  /** The accounts of who has which picture. */
  datatype Accounts = Accounts(vda: bool, available: int, atDisplay: set<nat>, owned: set<nat>, failed: bool)

  function AccountsOf(s: State): Accounts {
    Accounts(s.vda, s.available, s.atDisplay, s.owned, s.failed)
  }

  /** Where the Resets are. */
  datatype Pending = Pending(resets: seq<nat>, resetCb: Option<nat>, deferred: seq<nat>)

  function PendingOf(s: State): Pending {
    Pending(s.resets, s.resetCb, s.deferred)
  }

  // ---- parts of the operations ----

  /** Runs the pending decode callback. */
  function Respond(s: State, status: Status, frame: Option<Frame>): (r: State)
    requires s.decodeCb.Some?
    ensures r.ready == s.ready && r.held == s.held
    ensures TexturesOf(r) == TexturesOf(s) && AccountsOf(r) == AccountsOf(s)
    ensures PendingOf(r) == PendingOf(s)
  {
    s.(answers := s.answers + [Answer(s.decodeCb.value, status, frame)], decodeCb := None)
  }

  /** Drops the frames not yet delivered. */
  function ClearReady(s: State): (r: State)
    ensures TexturesOf(r) == TexturesOf(s) && AccountsOf(r) == AccountsOf(s)
    ensures PendingOf(r) == PendingOf(s)
  {
    s.(ready := [], held := s.held + Pictures(s.ready))
  }

  /** Hands the first ready frame to the pending Decode. */
  function Deliver(s: State): (r: State)
    requires s.ready != []
    ensures TexturesOf(r) == TexturesOf(s) && AccountsOf(r) == AccountsOf(s)
    ensures PendingOf(r) == PendingOf(s)
  {
    if s.decodeCb == None then s
    else Respond(s, Ok, Some(s.ready[0])).(ready := s.ready[1..], held := s.held + PictureOf(s.ready[0]))
  }

  /** EnqueueFrameAndTriggerFrameDelivery with a frame. */
  function Enqueue(s: State, frame: Frame): (r: State)
    ensures TexturesOf(r) == TexturesOf(s) && AccountsOf(r) == AccountsOf(s)
    ensures PendingOf(r) == PendingOf(s)
  {
    if s.resetCb.Some? then s.(held := s.held + PictureOf(frame))
    else Deliver(s.(ready := s.ready + [frame]))
  }

  /** EnqueueFrameAndTriggerFrameDelivery without one. */
  function Trigger(s: State): (r: State)
    requires s.ready != []
    ensures TexturesOf(r) == TexturesOf(s) && AccountsOf(r) == AccountsOf(s)
    ensures PendingOf(r) == PendingOf(s)
  {
    if s.resetCb.Some? then s else Deliver(s)
  }

  /** One more frame has been created. */
  function Numbered(s: State): State {
    s.(serial := s.serial + 1)
  }

  function EnqueueNew(s: State, picture: Option<nat>): (r: State)
    ensures TexturesOf(r) == TexturesOf(s) && AccountsOf(r) == AccountsOf(s)
    ensures PendingOf(r) == PendingOf(s)
  {
    Enqueue(Numbered(s), Frame(picture, s.serial))
  }

  /** An empty frame for the pending Decode, if there is one. */
  function EndPending(s: State): (r: State)
    ensures TexturesOf(r) == TexturesOf(s) && AccountsOf(r) == AccountsOf(s)
    ensures PendingOf(r) == PendingOf(s)
  {
    if s.decodeCb.Some? then EnqueueNew(s, None) else s
  }

  function DestroyVDA(s: State): (r: State)
    ensures r.ready == s.ready && r.held == s.held
    ensures PendingOf(r) == PendingOf(s)
    ensures r.recorded == s.recorded
  {
    s.(vda := false, deleted := s.deleted + multiset(s.assignedBuffers.Values), assignedBuffers := map[], owned := {})
  }

  function EndVDA(s: State): (r: State)
    ensures r.ready == s.ready && r.held == s.held
    ensures PendingOf(r) == PendingOf(s)
    ensures r.recorded == s.recorded
  {
    if s.vda then DestroyVDA(s) else s
  }

  function InFlightBelowMax(s: State): bool {
    |s.inDecoder| < MAX_IN_FLIGHT
  }

  // ---- calls of the client ----

  /** A bitstream buffer handed to the decoder in its normal mode; `shm` says whether there is shared memory for it. */
  function Submit(s: State, endOfStream: bool, shm: bool): (r: State)
    requires s.decodeCb.Some?
    ensures TexturesOf(r) == TexturesOf(s) && AccountsOf(r) == AccountsOf(s)
    ensures PendingOf(r) == PendingOf(s)
  {
    if endOfStream then TriggerIfReady(s.(mode := DrainingDecoder))
    else if !shm then Respond(s.(mode := Normal), DecodeError, None)
    else Submitted(WithBuffer(s.(mode := Normal)))
  }

  /** The bitstream buffer is with the accelerator; its number has 30 bits. */
  function WithBuffer(s: State): State {
    s.(inDecoder := s.inDecoder + {s.nextBitstream}, nextBitstream := (s.nextBitstream + 1) % 0x4000_0000)
  }

  function TriggerIfReady(s: State): (r: State)
    ensures TexturesOf(r) == TexturesOf(s) && AccountsOf(r) == AccountsOf(s)
    ensures PendingOf(r) == PendingOf(s)
  {
    if s.ready != [] then Trigger(s) else s
  }

  function Submitted(s: State): (r: State)
    requires s.decodeCb.Some?
    ensures TexturesOf(r) == TexturesOf(s) && AccountsOf(r) == AccountsOf(s)
    ensures PendingOf(r) == PendingOf(s)
  {
    if s.ready != [] then Trigger(s) else if InFlightBelowMax(s) then Respond(s, NotEnoughData, None) else s
  }

  /** Drained: a ready frame answers at once. Draining: answered by the next picture or when the flush is done. */
  function InMode(s: State, endOfStream: bool, shm: bool): (r: State)
    requires s.decodeCb.Some?
    ensures TexturesOf(r) == TexturesOf(s) && AccountsOf(r) == AccountsOf(s)
    ensures PendingOf(r) == PendingOf(s)
  {
    if s.mode == DecoderDrained && s.ready != [] then Trigger(s)
    else if s.mode == DrainingDecoder then s
    else Submit(s, endOfStream, shm)
  }

  function Accept(s: State, endOfStream: bool, shm: bool): (r: State)
    requires s.decodeCb.Some?
    ensures TexturesOf(r) == TexturesOf(s) && AccountsOf(r) == AccountsOf(s)
    ensures PendingOf(r) == PendingOf(s)
  {
    if s.mode == Error || !s.vda then Respond(s, DecodeError, None) else InMode(s, endOfStream, shm)
  }

  function Ask(s: State): (r: State)
    ensures PendingOf(r) == PendingOf(s)
  {
    s.(decodeCb := Some(s.requests), requests := s.requests + 1)
  }

  function Decode(s: State, endOfStream: bool, shm: bool): (r: State)
    ensures TexturesOf(r) == TexturesOf(s) && AccountsOf(r) == AccountsOf(s)
    ensures PendingOf(r) == PendingOf(s)
  {
    Accept(Ask(s), endOfStream, shm)
  }

  /** The Reset is posted to be tried again. */
  function Defer(s: State, closure: nat): (r: State)
    ensures TexturesOf(r) == TexturesOf(s) && AccountsOf(r) == AccountsOf(s)
  {
    var s1 := s.(deferred := s.deferred + [closure]);
    if s1.decodeCb == None then ClearReady(s1) else s1
  }

  /** Without an accelerator the Reset is answered at once, else when the accelerator has been reset. */
  function StartReset(s: State, closure: nat): (r: State)
    ensures TexturesOf(r) == TexturesOf(s) && AccountsOf(r) == AccountsOf(s)
  {
    if !s.vda then s.(resets := s.resets + [closure]) else EndPending(s).(resetCb := Some(closure))
  }

  function Reset(s: State, closure: nat, aborted: bool): (r: State)
    ensures TexturesOf(r) == TexturesOf(s) && AccountsOf(r) == AccountsOf(s)
  {
    if s.mode == DrainingDecoder && !aborted then Defer(s, closure) else StartReset(ClearReady(s), closure)
  }

  /** The first deferred Reset is tried again. */
  function RunDeferred(s: State, aborted: bool): (r: State)
    requires s.deferred != []
    ensures TexturesOf(r) == TexturesOf(s) && AccountsOf(r) == AccountsOf(s)
  {
    Reset(s.(deferred := s.deferred[1..]), s.deferred[0], aborted)
  }

  function RunResetCb(s: State): (r: State)
    ensures TexturesOf(r) == TexturesOf(s) && AccountsOf(r) == AccountsOf(s)
  {
    if s.resetCb.Some? then s.(resets := s.resets + [s.resetCb.value], resetCb := None) else s
  }

  function Stopped(s: State, closure: nat): State {
    s.(stopped := true, stops := s.stops + [closure])
  }

  function Stop(s: State, closure: nat): (r: State)
    ensures r.recorded == s.recorded
  {
    Stopped(RunResetCb(EndPending(EndVDA(s))), closure)
  }

  /** The client has released a frame of picture `id`. */
  function ReusePictureBuffer(s0: State, id: nat): (r: State)
    ensures PendingOf(r) == PendingOf(s0) && r.recorded == s0.recorded
  {
    var s := s0.(held := s0.held - {id});
    if !s.vda then s
    else
      var s1 := s.(failed := s.failed || s.atDisplay == {}, atDisplay := s.atDisplay - {id});
      if id in s1.assignedBuffers then s1.(available := s1.available + 1, owned := s1.owned + {id})
      else if id in s1.dismissed then s1.(deleted := s1.deleted + multiset{s1.dismissed[id]},
        dismissed := s1.dismissed - {id})
      else s1.(failed := true)
  }

  // ---- callbacks of the accelerator ----

  function NotifyError(s: State): (r: State)
    ensures r.ready == s.ready && r.held == s.held
    ensures PendingOf(r) == PendingOf(s)
    ensures r.recorded == s.recorded
  {
    if !s.vda then s
    else
      var s1 := DestroyVDA(s).(mode := Error);
      if s1.decodeCb.Some? then Respond(s1, DecodeError, None) else s1
  }

  /** The pictures for the first `k` newly created textures, numbered from `next` on. */
  function FirstPictures(next: nat, textures: seq<nat>, k: nat): (r: map<nat, Picture>)
    requires k <= |textures|
  {
    if k == 0 then map[]
    else FirstPictures(next, textures, k - 1)[next + k - 1 := Picture(next + k - 1, textures[k - 1])]
  }

  function NewPictures(next: nat, textures: seq<nat>): map<nat, Picture> {
    FirstPictures(next, textures, |textures|)
  }

  /** They are as many as the textures, numbered without gaps, each filed under its number. */
  lemma {:induction false} NewPicturesAre(next: nat, textures: seq<nat>, k: nat)
    requires k <= |textures|
    ensures var r := FirstPictures(next, textures, k);
      |r| == k && (forall i :: i in r <==> next <= i < next + k) && forall i :: i in r ==>
        r[i] == Picture(i, textures[i - next])
  {
    if k > 0 { NewPicturesAre(next, textures, k - 1); }
  }

  /** `textures` is None if they cannot be created. */
  function ProvidePictureBuffers(s: State, textures: Option<seq<nat>>): (r: State)
    ensures PendingOf(r) == PendingOf(s)
  {
    if textures == None then NotifyError(s)
    else if !s.vda then s
    else
      var added := NewPictures(s.nextPicture, textures.value);
      s.(nextPicture := s.nextPicture + |textures.value|, assignedBuffers := s.assignedBuffers + added,
        recorded := s.recorded + added,
         owned := s.owned + added.Keys, available := s.available + |textures.value|)
  }

  function DismissPictureBuffer(s: State, id: nat): (r: State)
    ensures r.ready == s.ready && r.held == s.held
    ensures PendingOf(r) == PendingOf(s)
    ensures r.recorded == s.recorded
  {
    if id !in s.assignedBuffers then s
    else
      var s1 := s.(assignedBuffers := s.assignedBuffers - {id}, owned := s.owned - {id});
      if id !in s.atDisplay then
        s1.(deleted := s1.deleted + multiset{s.assignedBuffers[id]}, failed := s1.failed || s1.available <= 0,
            available := s1.available - 1)
      else s1.(dismissed := s1.dismissed[id := s.assignedBuffers[id]])
  }

  /** The accelerator has decoded into picture `id`: it is at display from now on. */
  function Taken(s: State, id: nat): (r: State)
    ensures r.ready == s.ready && r.held == s.held && TexturesOf(r) == TexturesOf(s)
    ensures PendingOf(r) == PendingOf(s)
  {
    s.(failed := s.failed || s.available <= 0, available := s.available - 1, atDisplay := s.atDisplay + {id},
      owned := s.owned - {id})
  }

  function PictureReady(s: State, id: nat): (r: State)
    ensures id in s.assignedBuffers ==> TexturesOf(r) == TexturesOf(s)
    ensures PendingOf(r) == PendingOf(s)
    ensures r.recorded == s.recorded
  {
    if id !in s.assignedBuffers then NotifyError(s)
    else
      EnqueueNew(Taken(s, id), Some(id))
  }

  function NotifyEndOfBitstreamBuffer(s: State, id: nat): (r: State)
    ensures r.ready == s.ready && r.held == s.held &&
      (id in s.inDecoder ==> TexturesOf(r) == TexturesOf(s) && AccountsOf(r) == AccountsOf(s))
    ensures PendingOf(r) == PendingOf(s)
    ensures r.recorded == s.recorded
  {
    if id !in s.inDecoder then NotifyError(s)
    else
      var s1 := s.(inDecoder := s.inDecoder - {id});
      if s1.resetCb == None && s1.mode != DrainingDecoder && InFlightBelowMax(s1) && s1.decodeCb.Some?
      then Respond(s1, NotEnoughData, None) else s1
  }

  function NotifyFlushDone(s: State): (r: State)
    ensures TexturesOf(r) == TexturesOf(s) && AccountsOf(r) == AccountsOf(s)
    ensures PendingOf(r) == PendingOf(s)
  {
    EnqueueNew(s.(mode := DecoderDrained), None)
  }

  function NotifyResetDone(s: State): (r: State)
    ensures TexturesOf(r) == TexturesOf(s) && AccountsOf(r) == AccountsOf(s)
  {
    EndPending(RunResetCb(s))
  }

  /** What the destructor leaves: all remaining textures are deleted. */
  function Destructed(s: State): State {
    s.(inDecoder := {}, deleted := s.deleted + multiset(s.assignedBuffers.Values) + multiset(s.dismissed.Values),
      assignedBuffers := map[], dismissed := map[])
  }

  // ---- events ----

  datatype Event =
    | DecodeCall(endOfStream: bool, shm: bool)
    | ResetCall(closure: nat, aborted: bool)
    | DeferredReset(aborted: bool)
    | StopCall(closure: nat)
    | Released(picture: nat)
    | Provide(textures: Option<seq<nat>>)
    | Dismiss(picture: nat)
    | Decoded(picture: nat)
    | EndOfBitstream(buffer: nat)
    | FlushDone
    | ResetDone
    | Failure

  /** What an event makes of the state. */
  function Next(s: State, e: Event): State
    requires e.DeferredReset? ==> s.deferred != []
  {
    match e
    case DecodeCall(endOfStream, shm) => Decode(s, endOfStream, shm)
    case ResetCall(closure, aborted) => Reset(s, closure, aborted)
    case DeferredReset(aborted) => RunDeferred(s, aborted)
    case StopCall(closure) => Stop(s, closure)
    case Released(id) => ReusePictureBuffer(s, id)
    case Provide(textures) => ProvidePictureBuffers(s, textures)
    case Dismiss(id) => DismissPictureBuffer(s, id)
    case Decoded(id) => PictureReady(s, id)
    case EndOfBitstream(id) => NotifyEndOfBitstreamBuffer(s, id)
    case FlushDone => NotifyFlushDone(s)
    case ResetDone => NotifyResetDone(s)
    case Failure => NotifyError(s)
  }

  /** What the client may do: one Decode at a time, none while a Reset is under way, one Reset at a time, none
      of them after Stop, only end-of-stream buffers while draining; release a frame it was given, once. */
  predicate ClientMay(s: State, e: Event) {
    match e
    case DecodeCall(endOfStream, _) =>
      && !s.stopped && s.decodeCb == None && s.resetCb == None && s.deferred == []
      && (s.mode == DrainingDecoder ==> endOfStream)
    case ResetCall(_, _) => !s.stopped && s.resetCb == None && s.deferred == []
    case DeferredReset(_) => s.deferred != []
    case StopCall(_) => !s.stopped
    case Released(id) => id in s.held
    case _ => true
  }

  /** What a well-behaved accelerator may do while alive: decode into pictures it owns, dismiss assigned ones,
      return bitstream buffers it was given, finish a flush or a reset that was asked for. */
  predicate AcceleratorMay(s: State, e: Event) {
    match e
    case Provide(_) => s.vda
    case Dismiss(id) => s.vda && id in s.assignedBuffers
    case Decoded(id) => s.vda && id in s.owned
    case EndOfBitstream(id) => s.vda && id in s.inDecoder
    case FlushDone => s.vda && s.mode == DrainingDecoder
    case ResetDone => s.vda && s.resetCb.Some?
    case Failure => s.vda
    case _ => true
  }

  predicate Legal(s: State, e: Event) {
    ClientMay(s, e) && AcceleratorMay(s, e)
  }
}
