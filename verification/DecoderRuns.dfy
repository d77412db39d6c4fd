/** What holds in every run of the GPU video decoder. */
module DecoderRuns {
  import opened Trees
  import opened DecoderStates

  // ---- textures ----

  /** How often the picture recorded under `id` is assigned, dismissed or deleted: once in all. */
  ghost predicate Once(s: State, id: nat)
    requires id in s.recorded
  {
    (if id in s.assignedBuffers then 1 else 0) + (if id in s.dismissed then 1 else 0) + s.deleted[s.recorded[id]] == 1
  }

  ghost predicate Recorded(s: State, p: Picture) {
    p.id in s.recorded && s.recorded[p.id] == p
  }

  ghost predicate Ledger(s: State) {
    && (forall id :: id in s.recorded ==> id < s.nextPicture && s.recorded[id].id == id && Once(s, id))
    && (forall id :: id in s.assignedBuffers ==> s.assignedBuffers[id].id == id && Recorded(s, s.assignedBuffers[id]))
    && (forall id :: id in s.dismissed ==> s.dismissed[id].id == id && Recorded(s, s.dismissed[id]))
    && (forall p :: p in s.deleted ==> Recorded(s, p))
  }

  lemma SameLedger(s: State, r: State)
    requires Ledger(s) && TexturesOf(r) == TexturesOf(s)
    ensures Ledger(r)
  {
    forall id | id in r.recorded ensures Once(r, id) { assert Once(s, id); }
    forall id | id in r.assignedBuffers ensures Recorded(r, r.assignedBuffers[id]) {
      assert Recorded(s, s.assignedBuffers[id]);
    }
    forall id | id in r.dismissed ensures Recorded(r, r.dismissed[id]) { assert Recorded(s, s.dismissed[id]); }
    forall p | p in r.deleted ensures Recorded(r, p) { assert Recorded(s, p); }
  }

  lemma Whereabouts(s: State, id: nat)
    requires Ledger(s) && id in s.recorded
    ensures s.recorded[id] in s.assignedBuffers.Values <==> id in s.assignedBuffers
    ensures s.recorded[id] in s.dismissed.Values <==> id in s.dismissed
  {
    var p := s.recorded[id];
    if id in s.assignedBuffers { assert Recorded(s, s.assignedBuffers[id]); }
    if id in s.dismissed { assert Recorded(s, s.dismissed[id]); }
    if p in s.assignedBuffers.Values {
      var k :| k in s.assignedBuffers && s.assignedBuffers[k] == p;
      assert Recorded(s, s.assignedBuffers[k]);
    }
    if p in s.dismissed.Values {
      var k :| k in s.dismissed && s.dismissed[k] == p;
      assert Recorded(s, s.dismissed[k]);
    }
  }

  lemma DestroyLedger(s: State)
    requires Ledger(s)
    ensures Ledger(DestroyVDA(s))
  {
    var r := DestroyVDA(s);
    forall id | id in r.recorded ensures Once(r, id) {
      assert Once(s, id);
      Whereabouts(s, id);
    }
    forall p | p in r.deleted ensures Recorded(r, p) {
      if p in s.deleted {
        assert Recorded(s, p);
      } else {
        var k :| k in s.assignedBuffers && s.assignedBuffers[k] == p;
        assert Recorded(s, s.assignedBuffers[k]);
      }
    }
    forall id | id in r.dismissed ensures Recorded(r, r.dismissed[id]) { assert Recorded(s, s.dismissed[id]); }
  }

  lemma DeleteDismissed(s: State, id: nat)
    requires Ledger(s) && id in s.dismissed
    ensures Ledger(s.(deleted := s.deleted + multiset{s.dismissed[id]}, dismissed := s.dismissed - {id}))
  {
    var r := s.(deleted := s.deleted + multiset{s.dismissed[id]}, dismissed := s.dismissed - {id});
    assert Recorded(s, s.dismissed[id]);
    forall k | k in r.recorded ensures Once(r, k) { assert Once(s, k); }
    forall k | k in r.assignedBuffers ensures Recorded(r, r.assignedBuffers[k]) {
      assert Recorded(s, s.assignedBuffers[k]);
    }
    forall k | k in r.dismissed ensures Recorded(r, r.dismissed[k]) { assert Recorded(s, s.dismissed[k]); }
    forall p | p in r.deleted ensures Recorded(r, p) { assert p in s.deleted ==> Recorded(s, p); }
  }

  lemma DeleteAssigned(s: State, id: nat)
    requires Ledger(s) && id in s.assignedBuffers
    ensures Ledger(s.(deleted := s.deleted + multiset{s.assignedBuffers[id]},
      assignedBuffers := s.assignedBuffers - {id}))
  {
    var r := s.(deleted := s.deleted + multiset{s.assignedBuffers[id]}, assignedBuffers := s.assignedBuffers - {id});
    assert Recorded(s, s.assignedBuffers[id]);
    forall k | k in r.recorded ensures Once(r, k) { assert Once(s, k); }
    forall k | k in r.assignedBuffers ensures Recorded(r, r.assignedBuffers[k]) {
      assert Recorded(s, s.assignedBuffers[k]);
    }
    forall k | k in r.dismissed ensures Recorded(r, r.dismissed[k]) { assert Recorded(s, s.dismissed[k]); }
    forall p | p in r.deleted ensures Recorded(r, p) { assert p in s.deleted ==> Recorded(s, p); }
  }

  lemma DismissAssigned(s: State, id: nat)
    requires Ledger(s) && id in s.assignedBuffers
    ensures Ledger(s.(dismissed := s.dismissed[id := s.assignedBuffers[id]],
      assignedBuffers := s.assignedBuffers - {id}))
  {
    var r := s.(dismissed := s.dismissed[id := s.assignedBuffers[id]], assignedBuffers := s.assignedBuffers - {id});
    assert Recorded(s, s.assignedBuffers[id]) && Once(s, id);
    forall k | k in r.recorded ensures Once(r, k) { assert Once(s, k); }
    forall k | k in r.assignedBuffers ensures Recorded(r, r.assignedBuffers[k]) {
      assert Recorded(s, s.assignedBuffers[k]);
    }
    forall k | k in r.dismissed ensures Recorded(r, r.dismissed[k]) { assert k != id ==> Recorded(s, s.dismissed[k]); }
    forall p | p in r.deleted ensures Recorded(r, p) { assert Recorded(s, p); }
  }

  lemma DismissLedger(s: State, id: nat)
    requires Ledger(s)
    ensures Ledger(DismissPictureBuffer(s, id))
  {
    if id in s.assignedBuffers && id !in s.atDisplay {
      DeleteAssigned(s, id);
      SameLedger(s.(deleted := s.deleted + multiset{s.assignedBuffers[id]},
        assignedBuffers := s.assignedBuffers - {id}), DismissPictureBuffer(s, id));
    } else if id in s.assignedBuffers {
      DismissAssigned(s, id);
      SameLedger(s.(dismissed := s.dismissed[id := s.assignedBuffers[id]],
        assignedBuffers := s.assignedBuffers - {id}), DismissPictureBuffer(s, id));
    }
  }

  /** Numbers from `nextPicture` on are new. */
  lemma Known(s: State, id: nat)
    requires Ledger(s)
    ensures id in s.assignedBuffers || id in s.dismissed || id in s.recorded ==> id < s.nextPicture
    ensures !(id in s.assignedBuffers && id in s.dismissed)
    ensures forall p :: p in s.deleted && p.id == id ==> id < s.nextPicture
  {
    if id in s.assignedBuffers { assert Recorded(s, s.assignedBuffers[id]); }
    if id in s.dismissed { assert Recorded(s, s.dismissed[id]); }
    if id in s.recorded { assert Once(s, id); }
    forall p | p in s.deleted && p.id == id ensures id < s.nextPicture { assert Recorded(s, p); }
  }

  lemma NewIsFresh(s: State, textures: seq<nat>, id: nat)
    requires Ledger(s) && id in NewPictures(s.nextPicture, textures)
    ensures var p := NewPictures(s.nextPicture, textures)[id];
      && p.id == id && id < s.nextPicture + |textures| && p !in s.deleted
      && id !in s.assignedBuffers && id !in s.dismissed && id !in s.recorded
  {
    NewPicturesAre(s.nextPicture, textures, |textures|);
    Known(s, id);
  }

  lemma ProvideLedger(s: State, textures: seq<nat>)
    requires Ledger(s) && s.vda
    ensures Ledger(ProvidePictureBuffers(s, Some(textures)))
  {
    var r, added := ProvidePictureBuffers(s, Some(textures)), NewPictures(s.nextPicture, textures);
    forall id | id in added
      ensures added[id].id == id && id < r.nextPicture && added[id] !in s.deleted
      ensures id !in s.assignedBuffers && id !in s.dismissed && id !in s.recorded
    {
      NewIsFresh(s, textures, id);
    }
    AddLedger(s, r, added);
  }

  /** `r` is `s` with the new pictures `added`. */
  ghost predicate Adds(s: State, r: State, added: map<nat, Picture>) {
    && (forall id :: id in added ==> added[id].id == id && id < r.nextPicture && added[id] !in s.deleted)
    && (forall id :: id in added ==> id !in s.assignedBuffers && id !in s.dismissed && id !in s.recorded)
    && r.assignedBuffers == s.assignedBuffers + added && r.recorded == s.recorded + added
    && r.dismissed == s.dismissed && r.deleted == s.deleted && s.nextPicture <= r.nextPicture
  }

  lemma AddOnce(s: State, r: State, added: map<nat, Picture>, id: nat)
    requires Ledger(s) && Adds(s, r, added) && id in r.recorded
    ensures id < r.nextPicture && r.recorded[id].id == id && Once(r, id)
  {
    assert id in s.recorded ==> Once(s, id);
  }

  lemma AddLedger(s: State, r: State, added: map<nat, Picture>)
    requires Ledger(s) && Adds(s, r, added)
    ensures Ledger(r)
  {
    forall id | id in r.recorded ensures id < r.nextPicture && r.recorded[id].id == id && Once(r, id) {
      AddOnce(s, r, added, id);
    }
    forall id | id in r.assignedBuffers ensures Recorded(r, r.assignedBuffers[id]) {
      assert id in s.assignedBuffers ==> Recorded(s, s.assignedBuffers[id]);
    }
    forall id | id in r.dismissed ensures Recorded(r, r.dismissed[id]) { assert Recorded(s, s.dismissed[id]); }
    forall p | p in r.deleted ensures Recorded(r, p) { assert Recorded(s, p); }
  }

  lemma ErrorLedger(s: State)
    requires Ledger(s)
    ensures Ledger(NotifyError(s))
  {
    if s.vda {
      DestroyLedger(s);
      SameLedger(DestroyVDA(s), NotifyError(s));
    }
  }

  lemma StopLedger(s: State, closure: nat)
    requires Ledger(s)
    ensures Ledger(Stop(s, closure))
  {
    if s.vda {
      DestroyLedger(s);
      SameLedger(DestroyVDA(s), Stop(s, closure));
    } else {
      SameLedger(s, Stop(s, closure));
    }
  }

  lemma ReuseLedger(s: State, id: nat)
    requires Ledger(s)
    ensures Ledger(ReusePictureBuffer(s, id))
  {
    if s.vda && id !in s.assignedBuffers && id in s.dismissed {
      DeleteDismissed(s, id);
      SameLedger(s.(deleted := s.deleted + multiset{s.dismissed[id]}, dismissed := s.dismissed - {id}),
        ReusePictureBuffer(s, id));
    } else {
      SameLedger(s, ReusePictureBuffer(s, id));
    }
  }

  lemma ReadyLedger(s: State, id: nat)
    requires Ledger(s)
    ensures Ledger(PictureReady(s, id))
  {
    if id in s.assignedBuffers { SameLedger(s, PictureReady(s, id)); } else { ErrorLedger(s); }
  }

  lemma EndLedger(s: State, id: nat)
    requires Ledger(s)
    ensures Ledger(NotifyEndOfBitstreamBuffer(s, id))
  {
    if id in s.inDecoder { SameLedger(s, NotifyEndOfBitstreamBuffer(s, id)); } else { ErrorLedger(s); }
  }

  /** Whatever client and accelerator do, every texture ever recorded as assigned is assigned, dismissed or
      deleted, exactly one of these, and deleted at most once. */
  lemma LedgerKept(s: State, e: Event)
    requires Ledger(s) && (e.DeferredReset? ==> s.deferred != [])
    ensures Ledger(Next(s, e))
  {
    match e
    case StopCall(closure) => StopLedger(s, closure);
    case Released(id) => ReuseLedger(s, id);
    case Provide(textures) =>
      if textures == None { ErrorLedger(s); } else if s.vda { ProvideLedger(s, textures.value); }
    case Dismiss(id) => DismissLedger(s, id);
    case Decoded(id) => ReadyLedger(s, id);
    case EndOfBitstream(id) => EndLedger(s, id);
    case Failure => ErrorLedger(s);
    case _ => SameLedger(s, Next(s, e));
  }

  // ---- callbacks ----

  /** A Decode and a Reset are never pending together; no frame is ready while a Reset is pending; every Decode
      has been answered once, in order, but for the pending one; after Stop nothing is pending. */
  ghost predicate Callbacks(s: State) {
    && !(s.decodeCb.Some? && s.resetCb.Some?)
    && (s.resetCb.Some? ==> s.ready == [] && s.deferred == [])
    && |s.deferred| <= 1
    && (s.stopped ==> !s.vda && s.decodeCb == None && s.resetCb == None)
    && |s.answers| + (if s.decodeCb.Some? then 1 else 0) == s.requests
    && (s.decodeCb.Some? ==> s.decodeCb.value == s.requests - 1)
    && (forall i :: 0 <= i < |s.answers| ==> s.answers[i].request == i)
  }

  lemma EnqueueCallbacks(s: State, picture: Option<nat>)
    requires Callbacks(s)
    ensures Callbacks(EnqueueNew(s, picture)) && EnqueueNew(s, picture).decodeCb == None
    ensures EnqueueNew(s, picture).deferred == s.deferred && EnqueueNew(s, picture).resetCb == s.resetCb
    ensures s.ready == [] && s.decodeCb.Some? ==> EnqueueNew(s, picture).ready == []
  {
  }

  lemma ResetCallbacks(s: State, closure: nat, aborted: bool)
    requires Callbacks(s) && s.resetCb == None && s.deferred == []
    ensures Callbacks(Reset(s, closure, aborted))
  {
    if s.mode == DrainingDecoder && !aborted {
      DeferCallbacks(s, closure);
    } else {
      ClearCallbacks(s);
      StartCallbacks(ClearReady(s), closure);
    }
  }

  lemma DeferCallbacks(s: State, closure: nat)
    requires Callbacks(s) && s.resetCb == None && s.deferred == []
    ensures Callbacks(Defer(s, closure))
  {
  }

  lemma ClearCallbacks(s: State)
    requires Callbacks(s)
    ensures Callbacks(ClearReady(s))
  {
  }

  lemma StartCallbacks(s: State, closure: nat)
    requires Callbacks(s) && s.resetCb == None && s.deferred == [] && s.ready == []
    ensures Callbacks(StartReset(s, closure))
  {
    EndPendingCallbacks(s);
  }

  lemma EndPendingCallbacks(s: State)
    requires Callbacks(s)
    ensures var r := EndPending(s);
      && Callbacks(r) && r.decodeCb == None && r.deferred == s.deferred && r.resetCb == s.resetCb
      && (s.ready == [] ==> r.ready == []) && r.stopped == s.stopped
  {
    EnqueueCallbacks(s, None);
  }

  lemma StopCallbacks(s: State, closure: nat)
    requires Callbacks(s)
    ensures Callbacks(Stop(s, closure))
    ensures var r := Stop(s, closure); r.decodeCb == None && r.resetCb == None && !r.vda
  {
    var s1 := EndVDA(s);
    SameCallbacks(s, s1);
    EndPendingCallbacks(s1);
  }

  lemma DecodeCallbacks(s: State, endOfStream: bool, shm: bool)
    requires Callbacks(s) && !s.stopped && s.decodeCb == None && s.resetCb == None && s.deferred == []
    ensures Callbacks(Decode(s, endOfStream, shm))
  {
    var s1 := Ask(s);
    assert Callbacks(s1);
    AnswerCallbacks(s1, DecodeError, None);
    SubmitCallbacks(s1, endOfStream, shm);
    if s1.ready != [] { TriggerCallbacks(s1); }
  }

  lemma SubmitCallbacks(s: State, endOfStream: bool, shm: bool)
    requires Callbacks(s) && s.decodeCb.Some?
    ensures Callbacks(Submit(s, endOfStream, shm))
  {
    var s1 := s.(mode := Normal);
    SameCallbacks(s, s1);
    if endOfStream {
      SameCallbacks(s, s.(mode := DrainingDecoder));
      if s.ready != [] { TriggerCallbacks(s.(mode := DrainingDecoder)); }
    } else if !shm {
      AnswerCallbacks(s1, DecodeError, None);
    } else {
      SameCallbacks(s1, WithBuffer(s1));
      SubmittedCallbacks(WithBuffer(s1));
    }
  }

  lemma SubmittedCallbacks(s: State)
    requires Callbacks(s) && s.decodeCb.Some?
    ensures Callbacks(Submitted(s))
  {
    if s.ready != [] { TriggerCallbacks(s); }
    AnswerCallbacks(s, NotEnoughData, None);
  }

  lemma TriggerCallbacks(s: State)
    requires Callbacks(s) && s.ready != []
    ensures Callbacks(Trigger(s))
  {
  }

  lemma AnswerCallbacks(s: State, status: Status, frame: Option<Frame>)
    requires Callbacks(s) && s.decodeCb.Some?
    ensures Callbacks(Respond(s, status, frame))
  {
  }

  lemma ErrorCallbacks(s: State)
    requires Callbacks(s)
    ensures Callbacks(NotifyError(s))
  {
    if s.vda && s.decodeCb.Some? {
      AnswerCallbacks(DestroyVDA(s).(mode := Error), DecodeError, None);
    }
  }

  lemma EndCallbacks(s: State, id: nat)
    requires Callbacks(s) && id in s.inDecoder
    ensures Callbacks(NotifyEndOfBitstreamBuffer(s, id))
  {
    var s1 := s.(inDecoder := s.inDecoder - {id});
    if s1.decodeCb.Some? { AnswerCallbacks(s1, NotEnoughData, None); }
  }

  lemma ResetDoneCallbacks(s: State)
    requires Callbacks(s) && s.resetCb.Some?
    ensures Callbacks(NotifyResetDone(s))
  {
  }

  lemma ReadyCallbacks(s: State, id: nat)
    requires Callbacks(s) && id in s.assignedBuffers
    ensures Callbacks(PictureReady(s, id))
  {
    EnqueueCallbacks(Taken(s, id), Some(id));
  }

  lemma SameCallbacks(s: State, r: State)
    requires Callbacks(s) && r.decodeCb == s.decodeCb && r.resetCb == s.resetCb && r.ready == s.ready &&
      r.deferred == s.deferred
    requires r.answers == s.answers && r.requests == s.requests && r.stopped == s.stopped && (r.vda ==> s.vda)
    ensures Callbacks(r)
  {
  }

  lemma ProvideCallbacks(s: State, textures: Option<seq<nat>>)
    requires Callbacks(s)
    ensures Callbacks(ProvidePictureBuffers(s, textures))
  {
    if textures == None { ErrorCallbacks(s); } else { SameCallbacks(s, ProvidePictureBuffers(s, textures)); }
  }

  lemma DeferredCallbacks(s: State, aborted: bool)
    requires Callbacks(s) && s.deferred != []
    ensures Callbacks(RunDeferred(s, aborted))
  {
    var s1 := s.(deferred := s.deferred[1..]);
    assert Callbacks(s1) && s1.deferred == [];
    ResetCallbacks(s1, s.deferred[0], aborted);
  }

  lemma FlushCallbacks(s: State)
    requires Callbacks(s)
    ensures Callbacks(NotifyFlushDone(s))
  {
    SameCallbacks(s, s.(mode := DecoderDrained));
    EnqueueCallbacks(s.(mode := DecoderDrained), None);
  }

  lemma ClientCallbacks(s: State, e: Event)
    requires Callbacks(s) && ClientMay(s, e) &&
      (e.DecodeCall? || e.ResetCall? || e.DeferredReset? || e.StopCall? || e.Released?)
    ensures Callbacks(Next(s, e))
  {
    match e
    case DecodeCall(endOfStream, shm) => DecodeCallbacks(s, endOfStream, shm);
    case ResetCall(closure, aborted) => ResetCallbacks(s, closure, aborted);
    case DeferredReset(aborted) => DeferredCallbacks(s, aborted);
    case StopCall(closure) => StopCallbacks(s, closure);
    case Released(id) => SameCallbacks(s, ReusePictureBuffer(s, id));
  }

  lemma CallbacksKept(s: State, e: Event)
    requires Callbacks(s) && Legal(s, e)
    ensures Callbacks(Next(s, e))
  {
    match e
    case Provide(textures) => ProvideCallbacks(s, textures);
    case Dismiss(id) => SameCallbacks(s, DismissPictureBuffer(s, id));
    case Decoded(id) => ReadyOrError(s, id);
    case EndOfBitstream(id) => EndCallbacks(s, id);
    case FlushDone => FlushCallbacks(s);
    case ResetDone => ResetDoneCallbacks(s);
    case Failure => ErrorCallbacks(s);
    case _ => ClientCallbacks(s, e);
  }

  lemma ReadyOrError(s: State, id: nat)
    requires Callbacks(s)
    ensures Callbacks(PictureReady(s, id))
  {
    if id in s.assignedBuffers { ReadyCallbacks(s, id); } else { ErrorCallbacks(s); }
  }

  // ---- frames leave in order ----

  ghost function Delivered(answers: seq<Answer>): seq<Frame> {
    if answers == [] then [] else
      var a := answers[|answers| - 1];
      Delivered(answers[..|answers| - 1]) + if a.frame.Some? then [a.frame.value] else []
  }

  /** The frames delivered so far and those still ready, in line. */
  ghost function Line(s: State): seq<Frame> {
    Delivered(s.answers) + s.ready
  }

  ghost predicate InOrder(s: State) {
    && (forall i, j :: 0 <= i < j < |Line(s)| ==> Line(s)[i].serial < Line(s)[j].serial)
    && (forall i :: 0 <= i < |Line(s)| ==> Line(s)[i].serial < s.serial)
  }

  lemma RespondDelivers(s: State, status: Status, frame: Option<Frame>)
    requires s.decodeCb.Some?
    ensures Delivered(Respond(s, status, frame).answers) == Delivered(s.answers) + if frame.Some? then [frame.value]
      else []
  {
    var a := Answer(s.decodeCb.value, status, frame);
    assert (s.answers + [a])[..|s.answers|] == s.answers;
  }

  /** Delivering moves the front of the queue to the end of what is delivered: the line stays. */
  lemma DeliverKeepsLine(s: State)
    requires s.ready != []
    ensures Line(Deliver(s)) == Line(s) && Deliver(s).serial == s.serial
  {
    if s.decodeCb.Some? {
      RespondDelivers(s, Ok, Some(s.ready[0]));
      MoveFront(Delivered(s.answers), s.ready);
    }
  }

  lemma MoveFront(d: seq<Frame>, q: seq<Frame>)
    requires q != []
    ensures (d + [q[0]]) + q[1..] == d + q
  {
  }

  lemma OrderFrom(s: State, r: State, k: nat, more: seq<Frame>)
    requires InOrder(s) && k <= |Line(s)| && s.serial + |more| <= r.serial && Line(r) == Line(s)[..k] + more
    requires |more| <= 1 && (more != [] ==> more[0].serial == s.serial)
    ensures InOrder(r)
  {
  }

  lemma EnqueueOrder(s: State, picture: Option<nat>)
    requires InOrder(s)
    ensures InOrder(EnqueueNew(s, picture))
  {
    if s.resetCb.Some? {
      OrderFrom(s, EnqueueNew(s, picture), |Line(s)|, []);
    } else {
      var f := Frame(picture, s.serial);
      QueueOrder(s, s.(serial := s.serial + 1, ready := s.ready + [f]), f);
    }
  }

  lemma QueueOrder(s: State, r: State, f: Frame)
    requires InOrder(s) && f.serial == s.serial && r.serial == s.serial + 1 && r.ready == s.ready + [f] &&
      r.answers == s.answers
    ensures InOrder(Deliver(r))
  {
    DeliverKeepsLine(r);
    assert Line(r) == Line(s)[..|Line(s)|] + [f];
    OrderFrom(s, Deliver(r), |Line(s)|, [f]);
  }

  lemma SameOrder(s: State, r: State)
    requires InOrder(s) && Line(r) == Line(s) && r.serial == s.serial
    ensures InOrder(r)
  {
    OrderFrom(s, r, |Line(s)|, []);
  }

  lemma ClearOrder(s: State)
    requires InOrder(s)
    ensures InOrder(ClearReady(s))
  {
    OrderFrom(s, ClearReady(s), |Delivered(s.answers)|, []);
  }

  lemma AnswerOrder(s: State, status: Status)
    requires InOrder(s) && s.decodeCb.Some?
    ensures InOrder(Respond(s, status, None))
  {
    RespondDelivers(s, status, None);
    SameOrder(s, Respond(s, status, None));
  }

  lemma DeliverOrder(s: State)
    requires InOrder(s) && s.ready != []
    ensures InOrder(Trigger(s))
  {
    DeliverKeepsLine(s);
    SameOrder(s, Trigger(s));
  }

  lemma DecodeOrder(s: State, endOfStream: bool, shm: bool)
    requires InOrder(s)
    ensures InOrder(Decode(s, endOfStream, shm))
  {
    var s1 := Ask(s);
    SameOrder(s, s1);
    AnswerOrder(s1, DecodeError);
    SubmitOrder(s1, endOfStream, shm);
    if s1.ready != [] { DeliverOrder(s1); }
  }

  lemma SubmitOrder(s: State, endOfStream: bool, shm: bool)
    requires InOrder(s) && s.decodeCb.Some?
    ensures InOrder(Submit(s, endOfStream, shm))
  {
    var s1 := s.(mode := Normal);
    SameOrder(s, s1);
    if endOfStream {
      SameOrder(s, s.(mode := DrainingDecoder));
      if s.ready != [] { DeliverOrder(s.(mode := DrainingDecoder)); }
    } else if !shm {
      AnswerOrder(s1, DecodeError);
    } else {
      SameOrder(s1, WithBuffer(s1));
      SubmittedOrder(WithBuffer(s1));
    }
  }

  lemma SubmittedOrder(s: State)
    requires InOrder(s) && s.decodeCb.Some?
    ensures InOrder(Submitted(s))
  {
    if s.ready != [] { DeliverOrder(s); }
    AnswerOrder(s, NotEnoughData);
  }

  lemma ResetOrder(s: State, closure: nat, aborted: bool)
    requires InOrder(s)
    ensures InOrder(Reset(s, closure, aborted))
  {
    if s.mode == DrainingDecoder && !aborted {
      var s1 := s.(deferred := s.deferred + [closure]);
      SameOrder(s, s1);
      ClearOrder(s1);
    } else {
      ClearOrder(s);
      StartOrder(ClearReady(s), closure);
    }
  }

  lemma StartOrder(s: State, closure: nat)
    requires InOrder(s)
    ensures InOrder(StartReset(s, closure))
  {
    if s.vda {
      EndPendingOrder(s);
      SameOrder(EndPending(s), StartReset(s, closure));
    } else {
      SameOrder(s, StartReset(s, closure));
    }
  }

  lemma EndPendingOrder(s: State)
    requires InOrder(s)
    ensures InOrder(EndPending(s))
  {
    EnqueueOrder(s, None);
  }

  lemma StopOrder(s: State, closure: nat)
    requires InOrder(s)
    ensures InOrder(Stop(s, closure))
  {
    SameOrder(s, EndVDA(s));
    EndPendingOrder(EndVDA(s));
    SameOrder(EndPending(EndVDA(s)), Stop(s, closure));
  }

  lemma ErrorOrder(s: State)
    requires InOrder(s)
    ensures InOrder(NotifyError(s))
  {
    if s.vda {
      var s1 := DestroyVDA(s).(mode := Error);
      SameOrder(s, s1);
      if s1.decodeCb.Some? { AnswerOrder(s1, DecodeError); }
    }
  }

  lemma ReadyOrder(s: State, id: nat)
    requires InOrder(s)
    ensures InOrder(PictureReady(s, id))
  {
    ErrorOrder(s);
    SameOrder(s, Taken(s, id));
    EnqueueOrder(Taken(s, id), Some(id));
  }

  lemma EndOrder(s: State, id: nat)
    requires InOrder(s)
    ensures InOrder(NotifyEndOfBitstreamBuffer(s, id))
  {
    ErrorOrder(s);
    var s2 := s.(inDecoder := s.inDecoder - {id});
    SameOrder(s, s2);
    if s2.decodeCb.Some? { AnswerOrder(s2, NotEnoughData); }
  }

  lemma DoneOrder(s: State)
    requires InOrder(s)
    ensures InOrder(NotifyFlushDone(s)) && InOrder(NotifyResetDone(s))
  {
    var s1, s2 := s.(mode := DecoderDrained), RunResetCb(s);
    SameOrder(s, s1);
    SameOrder(s, s2);
    EnqueueOrder(s1, None);
    EnqueueOrder(s2, None);
  }

  lemma DeferredOrder(s: State, aborted: bool)
    requires InOrder(s) && s.deferred != []
    ensures InOrder(RunDeferred(s, aborted))
  {
    SameOrder(s, s.(deferred := s.deferred[1..]));
    ResetOrder(s.(deferred := s.deferred[1..]), s.deferred[0], aborted);
  }

  lemma ProvideOrder(s: State, textures: Option<seq<nat>>)
    requires InOrder(s)
    ensures InOrder(ProvidePictureBuffers(s, textures))
  {
    if textures == None { ErrorOrder(s); } else { SameOrder(s, ProvidePictureBuffers(s, textures)); }
  }

  /** Whatever client and accelerator do, frames are handed out in the order in which they were made. */
  lemma OrderKept(s: State, e: Event)
    requires InOrder(s) && (e.DeferredReset? ==> s.deferred != [])
    ensures InOrder(Next(s, e))
  {
    match e
    case DecodeCall(endOfStream, shm) => DecodeOrder(s, endOfStream, shm);
    case ResetCall(closure, aborted) => ResetOrder(s, closure, aborted);
    case DeferredReset(aborted) => DeferredOrder(s, aborted);
    case StopCall(closure) => StopOrder(s, closure);
    case Released(id) => SameOrder(s, ReusePictureBuffer(s, id));
    case Provide(textures) => ProvideOrder(s, textures);
    case Dismiss(id) => SameOrder(s, DismissPictureBuffer(s, id));
    case Decoded(id) => ReadyOrder(s, id);
    case EndOfBitstream(id) => EndOrder(s, id);
    case FlushDone => DoneOrder(s);
    case ResetDone => DoneOrder(s);
    case Failure => ErrorOrder(s);
  }

  // ---- who has which picture ----

  /** No picture is in two frames: ready ones differ from each other and from those out of the decoder. */
  ghost predicate FramesApart(s: State) {
    && s.held !! Pictures(s.ready)
    && forall i, j :: 0 <= i < j < |s.ready| ==> PictureOf(s.ready[i]) !! PictureOf(s.ready[j])
  }

  /** The pictures in frames, ready or out of the decoder. */
  function InFrames(s: State): set<nat> {
    s.held + Pictures(s.ready)
  }

  lemma FirstPicture(frames: seq<Frame>)
    requires frames != []
    ensures Pictures(frames) == PictureOf(frames[0]) + Pictures(frames[1..])
  {
    assert frames == [frames[0]] + frames[1..];
  }

  lemma LastPicture(frames: seq<Frame>, f: Frame)
    ensures Pictures(frames + [f]) == Pictures(frames) + PictureOf(f)
  {
  }

  lemma PictureApart(frames: seq<Frame>, i: nat, p: set<nat>)
    requires i < |frames| && Pictures(frames) !! p
    ensures PictureOf(frames[i]) !! p
  {
    assert frames[i] in frames;
  }

  lemma DeliverFrames(s: State)
    requires FramesApart(s) && s.ready != []
    ensures FramesApart(Deliver(s)) && InFrames(Deliver(s)) == InFrames(s)
  {
    FirstPicture(s.ready);
    var f, rest := s.ready[0], s.ready[1..];
    forall p | p in Pictures(rest) ensures p !in PictureOf(f) {
      var g :| g in rest && g.picture.Some? && g.picture.value == p;
      var i :| 0 <= i < |rest| && rest[i] == g;
      assert PictureOf(s.ready[0]) !! PictureOf(s.ready[i + 1]);
    }
  }

  lemma EnqueueFrames(s: State, picture: Option<nat>)
    requires FramesApart(s) && (picture.Some? ==> picture.value !in InFrames(s))
    ensures FramesApart(EnqueueNew(s, picture))
    ensures InFrames(EnqueueNew(s, picture)) == InFrames(s) + if picture.Some? then {picture.value} else {}
  {
    var f := Frame(picture, s.serial);
    LastPicture(s.ready, f);
    if s.resetCb == None {
      var s2 := s.(serial := s.serial + 1, ready := s.ready + [f]);
      QueueFrames(s, s2, f);
      DeliverFrames(s2);
    }
  }

  lemma QueueFrames(s: State, r: State, f: Frame)
    requires FramesApart(s) && PictureOf(f) !! InFrames(s) && r.ready == s.ready + [f] && r.held == s.held
    ensures FramesApart(r) && InFrames(r) == InFrames(s) + PictureOf(f)
  {
    LastPicture(s.ready, f);
    forall i, j | 0 <= i < j < |r.ready| ensures PictureOf(r.ready[i]) !! PictureOf(r.ready[j]) {
      if j == |s.ready| { PictureApart(s.ready, i, PictureOf(f)); }
    }
  }

  lemma ClearFrames(s: State)
    requires FramesApart(s)
    ensures FramesApart(ClearReady(s)) && InFrames(ClearReady(s)) == InFrames(s)
  {
  }

  lemma SameFrames(s: State, r: State)
    requires FramesApart(s) && r.ready == s.ready && r.held == s.held
    ensures FramesApart(r) && InFrames(r) == InFrames(s)
  {
  }

  /** An operation that leaves all frames where they are or moves them out. */
  ghost predicate FramesKept(s: State, r: State) {
    FramesApart(r) && InFrames(r) == InFrames(s)
  }

  lemma TriggerFrames(s: State)
    requires FramesApart(s)
    ensures FramesKept(s, TriggerIfReady(s))
  {
    if s.ready != [] { DeliverFrames(s); }
  }

  lemma DecodeFrames(s: State, endOfStream: bool, shm: bool)
    requires FramesApart(s)
    ensures FramesKept(s, Decode(s, endOfStream, shm))
  {
    var s1 := Ask(s);
    SameFrames(s, s1);
    TriggerFrames(s1);
    SubmitFrames(s1, endOfStream, shm);
    SameFrames(s1, Respond(s1, DecodeError, None));
  }

  lemma SubmitFrames(s: State, endOfStream: bool, shm: bool)
    requires FramesApart(s) && s.decodeCb.Some?
    ensures FramesKept(s, Submit(s, endOfStream, shm))
  {
    var s1 := s.(mode := Normal);
    SameFrames(s, s1);
    if endOfStream {
      SameFrames(s, s.(mode := DrainingDecoder));
      TriggerFrames(s.(mode := DrainingDecoder));
    } else if !shm {
      SameFrames(s, Respond(s1, DecodeError, None));
    } else {
      SameFrames(s, WithBuffer(s1));
      SubmittedFrames(WithBuffer(s1));
    }
  }

  lemma SubmittedFrames(s: State)
    requires FramesApart(s) && s.decodeCb.Some?
    ensures FramesKept(s, Submitted(s))
  {
    TriggerFrames(s);
    SameFrames(s, Respond(s, NotEnoughData, None));
  }

  lemma ResetFrames(s: State, closure: nat, aborted: bool)
    requires FramesApart(s)
    ensures FramesKept(s, Reset(s, closure, aborted))
  {
    if s.mode == DrainingDecoder && !aborted {
      var s1 := s.(deferred := s.deferred + [closure]);
      SameFrames(s, s1);
      ClearFrames(s1);
    } else {
      ClearFrames(s);
      StartFrames(ClearReady(s), closure);
    }
  }

  lemma StartFrames(s: State, closure: nat)
    requires FramesApart(s)
    ensures FramesKept(s, StartReset(s, closure))
  {
    if s.vda {
      EndPendingFrames(s);
      SameFrames(EndPending(s), StartReset(s, closure));
    } else {
      SameFrames(s, StartReset(s, closure));
    }
  }

  lemma EndPendingFrames(s: State)
    requires FramesApart(s)
    ensures FramesKept(s, EndPending(s))
  {
    if s.decodeCb.Some? { EnqueueFrames(s, None); }
  }

  lemma DeferredFrames(s: State, aborted: bool)
    requires FramesApart(s) && s.deferred != []
    ensures FramesKept(s, RunDeferred(s, aborted))
  {
    SameFrames(s, s.(deferred := s.deferred[1..]));
    ResetFrames(s.(deferred := s.deferred[1..]), s.deferred[0], aborted);
  }

  lemma StopFrames(s: State, closure: nat)
    requires FramesApart(s)
    ensures FramesKept(s, Stop(s, closure))
  {
    SameFrames(s, EndVDA(s));
    EndPendingFrames(EndVDA(s));
    SameFrames(EndPending(EndVDA(s)), Stop(s, closure));
  }

  lemma QuietFrames(s: State, id: nat)
    requires FramesApart(s)
    ensures FramesKept(s, NotifyError(s)) && FramesKept(s, DismissPictureBuffer(s, id))
    ensures FramesKept(s, NotifyEndOfBitstreamBuffer(s, id))
  {
    SameFrames(s, NotifyError(s));
    SameFrames(s, DismissPictureBuffer(s, id));
    SameFrames(s, NotifyEndOfBitstreamBuffer(s, id));
  }

  lemma DoneFrames(s: State)
    requires FramesApart(s)
    ensures FramesKept(s, NotifyFlushDone(s)) && FramesKept(s, NotifyResetDone(s))
  {
    var s1, s2 := s.(mode := DecoderDrained), RunResetCb(s);
    SameFrames(s, s1);
    SameFrames(s, s2);
    EnqueueFrames(s1, None);
    EnqueueFrames(s2, None);
  }

  /** While the accelerator is alive: the pictures at display are those in frames; it owns the assigned ones
      not at display, and `available` counts them; dismissed ones are at display. No CHECK has failed. */
  ghost predicate Balanced(s: State) {
    && !s.failed
    && (s.vda ==>
         && s.atDisplay == InFrames(s) && s.available == |s.owned|
         && Split(s.assignedBuffers.Keys, s.atDisplay, s.dismissed.Keys, s.owned))
  }

  ghost predicate Split(given: set<nat>, display: set<nat>, dismissed: set<nat>, owned: set<nat>) {
    owned == given - display && dismissed <= display <= given + dismissed
  }

  lemma SplitMore(given: set<nat>, display: set<nat>, dismissed: set<nat>, owned: set<nat>, added: set<nat>)
    requires Split(given, display, dismissed, owned) && added !! given && added !! dismissed
    ensures Split(given + added, display, dismissed, owned + added) && |owned + added| == |owned| + |added|
  {
    assert added !! owned;
  }

  /** A picture the accelerator owns is dismissed, or decoded into. */
  lemma SplitOwned(given: set<nat>, display: set<nat>, dismissed: set<nat>, owned: set<nat>, id: nat)
    requires Split(given, display, dismissed, owned) && id in owned
    ensures Split(given - {id}, display, dismissed, owned - {id}) &&
      Split(given, display + {id}, dismissed, owned - {id})
    ensures |owned| > 0 && |owned - {id}| == |owned| - 1
  {
  }

  /** A picture at display is dismissed, or returned. */
  lemma SplitDisplayed(given: set<nat>, display: set<nat>, dismissed: set<nat>, owned: set<nat>, id: nat)
    requires Split(given, display, dismissed, owned) && id in display && !(id in given && id in dismissed)
    ensures id in given ==> Split(given - {id}, display, dismissed + {id}, owned - {id}) && owned - {id} == owned
    ensures id in given ==> Split(given, display - {id}, dismissed, owned + {id}) && |owned + {id}| == |owned| + 1
    ensures id !in given ==> id in dismissed && Split(given, display - {id}, dismissed - {id}, owned)
  {
  }

  lemma SameBalance(s: State, r: State)
    requires Balanced(s) && AccountsOf(r) == AccountsOf(s) && TexturesOf(r) == TexturesOf(s) && FramesKept(s, r)
    ensures Balanced(r)
  {
  }

  lemma Fresh(s: State, textures: seq<nat>)
    requires Ledger(s)
    ensures NewPictures(s.nextPicture, textures).Keys !! s.assignedBuffers.Keys
    ensures NewPictures(s.nextPicture, textures).Keys !! s.dismissed.Keys
  {
    NewPicturesAre(s.nextPicture, textures, |textures|);
    forall id | id in NewPictures(s.nextPicture, textures) ensures id !in s.assignedBuffers && id !in s.dismissed {
      Known(s, id);
    }
  }

  lemma Balance(r: State, given: set<nat>, display: set<nat>, dismissed: set<nat>, owned: set<nat>)
    requires r.assignedBuffers.Keys == given && r.atDisplay == display && r.dismissed.Keys == dismissed &&
      r.owned == owned
    requires !r.failed && r.vda && display == InFrames(r) && r.available == |owned| &&
      Split(given, display, dismissed, owned)
    ensures Balanced(r)
  {
  }

  lemma ProvideBalance(s: State, textures: seq<nat>)
    requires Ledger(s) && FramesApart(s) && Balanced(s) && s.vda
    ensures Balanced(ProvidePictureBuffers(s, Some(textures)))
  {
    var r, added := ProvidePictureBuffers(s, Some(textures)), NewPictures(s.nextPicture, textures);
    Fresh(s, textures);
    NewPicturesAre(s.nextPicture, textures, |textures|);
    SplitMore(s.assignedBuffers.Keys, s.atDisplay, s.dismissed.Keys, s.owned, added.Keys);
    SameFrames(s, r);
    AddedKeys(s.assignedBuffers, added);
    Balance(r, s.assignedBuffers.Keys + added.Keys, s.atDisplay, s.dismissed.Keys, s.owned + added.Keys);
  }

  lemma AddedKeys(a: map<nat, Picture>, b: map<nat, Picture>)
    ensures (a + b).Keys == a.Keys + b.Keys && |b.Keys| == |b|
  {
  }

  lemma DismissBalance(s: State, id: nat)
    requires Ledger(s) && FramesApart(s) && Balanced(s) && s.vda && id in s.assignedBuffers
    ensures Balanced(DismissPictureBuffer(s, id)) && FramesApart(DismissPictureBuffer(s, id))
  {
    Known(s, id);
    QuietFrames(s, id);
    if id in s.atDisplay { DismissDisplayed(s, id); } else { DismissFree(s, id); }
  }

  lemma DismissFree(s: State, id: nat)
    requires FramesApart(s) && Balanced(s) && s.vda && id in s.assignedBuffers && id !in s.atDisplay
    ensures Balanced(DismissPictureBuffer(s, id))
  {
    var r := DismissPictureBuffer(s, id);
    SameFrames(s, r);
    SplitOwned(s.assignedBuffers.Keys, s.atDisplay, s.dismissed.Keys, s.owned, id);
    assert r.assignedBuffers.Keys == s.assignedBuffers.Keys - {id};
    Balance(r, s.assignedBuffers.Keys - {id}, s.atDisplay, s.dismissed.Keys, s.owned - {id});
  }

  lemma KeysMoved(a: map<nat, Picture>, d: map<nat, Picture>, id: nat)
    requires id in a
    ensures (a - {id}).Keys == a.Keys - {id} && d[id := a[id]].Keys == d.Keys + {id}
  {
  }

  lemma DismissDisplayed(s: State, id: nat)
    requires FramesApart(s) && Balanced(s) && s.vda && id in s.assignedBuffers && id in s.atDisplay &&
      id !in s.dismissed
    ensures Balanced(DismissPictureBuffer(s, id))
  {
    var r := DismissPictureBuffer(s, id);
    SameFrames(s, r);
    SplitDisplayed(s.assignedBuffers.Keys, s.atDisplay, s.dismissed.Keys, s.owned, id);
    KeysMoved(s.assignedBuffers, s.dismissed, id);
    Balance(r, s.assignedBuffers.Keys - {id}, s.atDisplay, s.dismissed.Keys + {id}, s.owned - {id});
  }

  lemma DecodedBalance(s: State, id: nat)
    requires FramesApart(s) && Balanced(s) && s.vda && id in s.owned
    ensures Balanced(PictureReady(s, id)) && FramesApart(PictureReady(s, id))
  {
    var s1 := Taken(s, id);
    SplitOwned(s.assignedBuffers.Keys, s.atDisplay, s.dismissed.Keys, s.owned, id);
    SameFrames(s, s1);
    EnqueueFrames(s1, Some(id));
  }

  lemma ReusedFrames(s: State, id: nat)
    requires FramesApart(s) && id in s.held
    ensures FramesApart(ReusePictureBuffer(s, id)) && InFrames(ReusePictureBuffer(s, id)) == InFrames(s) - {id}
  {
  }

  lemma ReuseBalance(s: State, id: nat)
    requires Ledger(s) && FramesApart(s) && Balanced(s) && id in s.held
    ensures Balanced(ReusePictureBuffer(s, id)) && FramesApart(ReusePictureBuffer(s, id))
  {
    ReusedFrames(s, id);
    Known(s, id);
    if s.vda { ReturnBalance(s, id); }
  }

  lemma ReturnBalance(s: State, id: nat)
    requires FramesApart(s) && Balanced(s) && id in s.held && s.vda
    requires !(id in s.assignedBuffers && id in s.dismissed)
    ensures Balanced(ReusePictureBuffer(s, id))
  {
    ReusedFrames(s, id);
    assert id in InFrames(s);
    SplitDisplayed(s.assignedBuffers.Keys, s.atDisplay, s.dismissed.Keys, s.owned, id);
    if id in s.assignedBuffers { ReturnAssigned(s, id); } else { ReturnDismissed(s, id); }
  }

  lemma ReturnAssigned(s: State, id: nat)
    requires Balanced(s) && s.vda && id in s.assignedBuffers && id in s.atDisplay
    requires InFrames(ReusePictureBuffer(s, id)) == InFrames(s) - {id} && |s.owned + {id}| == |s.owned| + 1
    requires Split(s.assignedBuffers.Keys, s.atDisplay - {id}, s.dismissed.Keys, s.owned + {id})
    ensures Balanced(ReusePictureBuffer(s, id))
  {
    Balance(ReusePictureBuffer(s, id), s.assignedBuffers.Keys, s.atDisplay - {id}, s.dismissed.Keys, s.owned + {id});
  }

  lemma ReturnDismissed(s: State, id: nat)
    requires Balanced(s) && s.vda && id !in s.assignedBuffers && id in s.dismissed && id in s.atDisplay
    requires InFrames(ReusePictureBuffer(s, id)) == InFrames(s) - {id}
    requires Split(s.assignedBuffers.Keys, s.atDisplay - {id}, s.dismissed.Keys - {id}, s.owned)
    ensures Balanced(ReusePictureBuffer(s, id))
  {
    assert (s.dismissed - {id}).Keys == s.dismissed.Keys - {id};
    Balance(ReusePictureBuffer(s, id), s.assignedBuffers.Keys, s.atDisplay - {id}, s.dismissed.Keys - {id}, s.owned);
  }

  lemma ErrorBalance(s: State)
    requires FramesApart(s) && Balanced(s)
    ensures Balanced(NotifyError(s)) && FramesApart(NotifyError(s))
  {
    QuietFrames(s, 0);
  }

  ghost predicate PicturesOk(s: State) {
    Ledger(s) && FramesApart(s) && Balanced(s)
  }

  lemma ClientBalance(s: State, e: Event)
    requires PicturesOk(s) && ClientMay(s, e) &&
      (e.DecodeCall? || e.ResetCall? || e.DeferredReset? || e.StopCall? || e.Released?)
    ensures Balanced(Next(s, e)) && FramesApart(Next(s, e))
  {
    match e
    case DecodeCall(endOfStream, shm) => DecodeBalance(s, endOfStream, shm);
    case ResetCall(closure, aborted) => ResetBalance(s, closure, aborted);
    case DeferredReset(aborted) => DeferredBalance(s, aborted);
    case StopCall(closure) => StopBalance(s, closure);
    case Released(id) => ReuseBalance(s, id);
  }

  lemma PictureBalance(s: State, e: Event)
    requires PicturesOk(s) && AcceleratorMay(s, e) && (e.Provide? || e.Dismiss? || e.Decoded?)
    ensures Balanced(Next(s, e)) && FramesApart(Next(s, e))
  {
    match e
    case Provide(textures) => ProvidedBalance(s, textures);
    case Dismiss(id) => DismissBalance(s, id);
    case Decoded(id) => DecodedBalance(s, id);
  }

  lemma NotifyBalance(s: State, e: Event)
    requires PicturesOk(s) && AcceleratorMay(s, e) && (e.EndOfBitstream? || e.FlushDone? || e.ResetDone? || e.Failure?)
    ensures Balanced(Next(s, e)) && FramesApart(Next(s, e))
  {
    match e
    case EndOfBitstream(id) => EndBalance(s, id);
    case FlushDone => DoneBalance(s);
    case ResetDone => DoneBalance(s);
    case Failure => ErrorBalance(s);
  }

  lemma BalanceKept(s: State, e: Event)
    requires PicturesOk(s) && Legal(s, e)
    ensures Balanced(Next(s, e)) && FramesApart(Next(s, e))
  {
    if e.Provide? || e.Dismiss? || e.Decoded? {
      PictureBalance(s, e);
    } else if e.EndOfBitstream? || e.FlushDone? || e.ResetDone? || e.Failure? {
      NotifyBalance(s, e);
    } else {
      ClientBalance(s, e);
    }
  }

  lemma DecodeBalance(s: State, endOfStream: bool, shm: bool)
    requires FramesApart(s) && Balanced(s)
    ensures Balanced(Decode(s, endOfStream, shm)) && FramesApart(Decode(s, endOfStream, shm))
  {
    DecodeFrames(s, endOfStream, shm);
    SameBalance(s, Decode(s, endOfStream, shm));
  }

  lemma ResetBalance(s: State, closure: nat, aborted: bool)
    requires FramesApart(s) && Balanced(s)
    ensures Balanced(Reset(s, closure, aborted)) && FramesApart(Reset(s, closure, aborted))
  {
    ResetFrames(s, closure, aborted);
    SameBalance(s, Reset(s, closure, aborted));
  }

  lemma DeferredBalance(s: State, aborted: bool)
    requires FramesApart(s) && Balanced(s) && s.deferred != []
    ensures Balanced(RunDeferred(s, aborted)) && FramesApart(RunDeferred(s, aborted))
  {
    DeferredFrames(s, aborted);
    SameBalance(s, RunDeferred(s, aborted));
  }

  lemma StopBalance(s: State, closure: nat)
    requires FramesApart(s) && Balanced(s)
    ensures Balanced(Stop(s, closure)) && FramesApart(Stop(s, closure))
  {
    StopFrames(s, closure);
  }

  lemma EndBalance(s: State, id: nat)
    requires FramesApart(s) && Balanced(s) && id in s.inDecoder
    ensures Balanced(NotifyEndOfBitstreamBuffer(s, id)) && FramesApart(NotifyEndOfBitstreamBuffer(s, id))
  {
    QuietFrames(s, id);
    SameBalance(s, NotifyEndOfBitstreamBuffer(s, id));
  }

  lemma DoneBalance(s: State)
    requires FramesApart(s) && Balanced(s)
    ensures Balanced(NotifyFlushDone(s)) && FramesApart(NotifyFlushDone(s))
    ensures Balanced(NotifyResetDone(s)) && FramesApart(NotifyResetDone(s))
  {
    DoneFrames(s);
    SameBalance(s, NotifyFlushDone(s));
    SameBalance(s, NotifyResetDone(s));
  }

  lemma ProvidedBalance(s: State, textures: Option<seq<nat>>)
    requires Ledger(s) && FramesApart(s) && Balanced(s) && s.vda
    ensures Balanced(ProvidePictureBuffers(s, textures)) && FramesApart(ProvidePictureBuffers(s, textures))
  {
    ProvideFrames(s, textures);
    if textures == None { ErrorBalance(s); } else { ProvideBalance(s, textures.value); }
  }

  lemma ProvideFrames(s: State, textures: Option<seq<nat>>)
    requires FramesApart(s)
    ensures FramesKept(s, ProvidePictureBuffers(s, textures))
  {
    QuietFrames(s, 0);
    if textures.Some? { SameFrames(s, ProvidePictureBuffers(s, textures)); }
  }

  // ---- runs ----

  /** What holds at every moment of a run. */
  ghost predicate Inv(s: State) {
    Ledger(s) && Callbacks(s) && InOrder(s) && FramesApart(s) && Balanced(s)
  }

  /** A run in which client and accelerator keep to their contracts. */
  ghost predicate Run(states: seq<State>, events: seq<Event>) {
    && |states| == |events| + 1 && (states[0] == Initial(true) || states[0] == Initial(false))
    && forall i :: 0 <= i < |events| ==> RunStep(states, events, i)
  }

  ghost predicate RunStep(states: seq<State>, events: seq<Event>, i: nat) {
    i < |events| && i + 1 < |states| && Legal(states[i], events[i]) && states[i + 1] == Next(states[i], events[i])
  }

  lemma InitialInv(s: State)
    requires s == Initial(true) || s == Initial(false)
    ensures Inv(s)
  {
  }

  lemma {:induction false} RunInv(states: seq<State>, events: seq<Event>, i: nat)
    requires Run(states, events) && i <= |events|
    ensures Inv(states[i])
    decreases i
  {
    if i == 0 {
      InitialInv(states[0]);
    } else {
      RunInv(states, events, i - 1);
      assert RunStep(states, events, i - 1);
      LedgerKept(states[i - 1], events[i - 1]);
      CallbacksKept(states[i - 1], events[i - 1]);
      OrderKept(states[i - 1], events[i - 1]);
      BalanceKept(states[i - 1], events[i - 1]);
    }
  }

  /** In every run: no CHECK fails; while the accelerator is alive the available count is the number of
      assigned pictures not at display, and dismissed pictures are at display. */
  lemma CountsAreRight(states: seq<State>, events: seq<Event>, i: nat)
    requires Run(states, events) && i <= |events|
    ensures !states[i].failed
    ensures states[i].vda ==>
      && states[i].available == |states[i].assignedBuffers.Keys - states[i].atDisplay|
      && states[i].dismissed.Keys <= states[i].atDisplay
  {
    RunInv(states, events, i);
  }

  /** In every run: a Decode and a Reset are never pending together, no frame is ready while a Reset is
      pending, the k-th answer answers the k-th Decode, all Decodes but at most the last have been answered, and
      after Stop neither is pending. */
  lemma EachDecodeAnsweredOnce(states: seq<State>, events: seq<Event>, i: nat)
    requires Run(states, events) && i <= |events|
    ensures var s := states[i];
      && !(s.decodeCb.Some? && s.resetCb.Some?)
      && (s.resetCb.Some? ==> s.ready == [])
      && (forall k :: 0 <= k < |s.answers| ==> s.answers[k].request == k)
      && |s.answers| == s.requests - (if s.decodeCb.Some? then 1 else 0)
      && (s.stopped ==> s.decodeCb == None && s.resetCb == None && |s.answers| == s.requests)
  {
    RunInv(states, events, i);
  }

  /** In every run frames are handed out in the order in which they were made. */
  lemma FramesInOrder(states: seq<State>, events: seq<Event>, i: nat, j: nat, k: nat)
    requires Run(states, events) && i <= |events| && j < k < |Delivered(states[i].answers)|
    ensures Delivered(states[i].answers)[j].serial < Delivered(states[i].answers)[k].serial
  {
    RunInv(states, events, i);
    assert Line(states[i])[j] == Delivered(states[i].answers)[j] &&
      Line(states[i])[k] == Delivered(states[i].answers)[k];
  }

  /** A run in which anybody may do anything at any time. */
  ghost predicate AnyRun(states: seq<State>, events: seq<Event>) {
    && |states| == |events| + 1 && (states[0] == Initial(true) || states[0] == Initial(false))
    && forall i :: 0 <= i < |events| ==> AnyStep(states, events, i)
  }

  ghost predicate AnyStep(states: seq<State>, events: seq<Event>, i: nat) {
    && i < |events| && i + 1 < |states| && (events[i].DeferredReset? ==> states[i].deferred != [])
    && states[i + 1] == Next(states[i], events[i])
  }

  lemma {:induction false} LedgerThroughout(states: seq<State>, events: seq<Event>, i: nat)
    requires AnyRun(states, events) && i <= |events|
    ensures Ledger(states[i])
    decreases i
  {
    if i > 0 {
      LedgerThroughout(states, events, i - 1);
      assert AnyStep(states, events, i - 1);
      LedgerKept(states[i - 1], events[i - 1]);
    }
  }

  /** Even then each recorded texture is assigned, dismissed or deleted, exactly one of these; it is never
      deleted twice; and the destructor leaves every one of them deleted once. */
  lemma TexturesAccounted(states: seq<State>, events: seq<Event>, i: nat)
    requires AnyRun(states, events) && i <= |events|
    ensures Ledger(states[i])
    ensures forall id :: id in states[i].recorded ==> Destructed(states[i]).deleted[states[i].recorded[id]] == 1
  {
    LedgerThroughout(states, events, i);
    forall id | id in states[i].recorded ensures Destructed(states[i]).deleted[states[i].recorded[id]] == 1 {
      DeletedInTheEnd(states[i], id);
    }
  }

  lemma DeletedInTheEnd(s: State, id: nat)
    requires Ledger(s) && id in s.recorded
    ensures Destructed(s).deleted[s.recorded[id]] == 1
  {
    assert Once(s, id);
    Whereabouts(s, id);
  }
}
