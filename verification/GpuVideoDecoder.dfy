/** The GPU video decoder as an object whose methods update its fields. */
module GpuVideo {
  import opened Trees
  import opened D = DecoderStates

  class GpuVideoDecoder {
    var mode: Mode
    var vda: bool
    var available: int
    var assignedBuffers: map<nat, Picture>
    var atDisplay: set<nat>
    var dismissed: map<nat, Picture>
    var ready: seq<Frame>
    var decodeCb: Option<nat>
    var resetCb: Option<nat>
    var inDecoder: set<nat>
    var nextPicture: nat
    var nextBitstream: nat
    var serial: nat

    ghost var log: Log  // what has been done so far, and the surroundings

    ghost function Snap(): State
      reads this
    {
      State(mode, vda, available, assignedBuffers, atDisplay, dismissed, ready, decodeCb, resetCb, inDecoder,
            nextPicture, nextBitstream, log.requests, serial, log.answers, log.deferred, log.resets, log.stops,
            log.deleted, log.failed, log.stopped, log.recorded, log.owned, log.held)
    }

    /** Pictures are filed under their numbers. */
    ghost predicate Valid()
      reads this
    {
      Filed(assignedBuffers) && Filed(dismissed)
    }

    constructor (vda: bool)
      ensures Valid() && Snap() == Initial(vda)
    {
      this.vda := vda;
      mode, available, assignedBuffers, atDisplay, dismissed, ready := Normal, 0, map[], {}, map[], [];
      decodeCb, resetCb, inDecoder, nextPicture, nextBitstream, serial := None, None, {}, 0, 0, 0;
      log := Log(0, [], [], [], [], multiset{}, false, false, map[], {}, {});
    }

    method RunDecodeCb(status: Status, frame: Option<Frame>)
      requires decodeCb.Some?
      modifies this`decodeCb, this`log
      ensures Snap() == Respond(old(Snap()), status, frame)
    {
      log := log.(answers := log.answers + [Answer(decodeCb.value, status, frame)]);
      decodeCb := None;
    }

    method DestroyPictureBuffers(buffers: map<nat, Picture>)
      requires Filed(buffers)
      modifies this`log
      ensures log == old(log).(deleted := old(log.deleted) + multiset(buffers.Values))
    {
      var left := buffers;
      while left != map[]
        invariant left.Keys <= buffers.Keys && (forall id :: id in left ==> left[id] == buffers[id])
        invariant log == old(log).(deleted := log.deleted)
        invariant log.deleted + multiset(left.Values) == old(log.deleted) + multiset(buffers.Values)
        decreases |left|
      {
        var id :| id in left;
        log := log.(deleted := log.deleted + multiset{left[id]});
        TakeOne(left, id);
        left := left - {id};
      }
    }

    method DestroyVDA()
      requires Valid()
      modifies this`vda, this`log, this`assignedBuffers
      ensures Valid() && Snap() == D.DestroyVDA(old(Snap()))
    {
      vda := false;
      DestroyPictureBuffers(assignedBuffers);
      assignedBuffers, log := map[], log.(owned := {});
    }

    method EndVDA()
      requires Valid()
      modifies this`vda, this`log, this`assignedBuffers
      ensures Valid() && Snap() == D.EndVDA(old(Snap()))
    {
      if vda { DestroyVDA(); }
    }

    /** Hands the first ready frame to the pending Decode. */
    method DeliverFrame()
      requires ready != []
      modifies this`ready, this`decodeCb, this`log
      ensures Snap() == Deliver(old(Snap()))
    {
      if decodeCb == None { return; }
      var front := ready[0];
      RunDecodeCb(Ok, Some(front));
      log := log.(held := log.held + PictureOf(front));
      ready := ready[1..];
    }

    method EnqueueFrameAndTriggerFrameDelivery(picture: Option<nat>)
      modifies this`ready, this`decodeCb, this`log, this`serial
      ensures Snap() == EnqueueNew(old(Snap()), picture)
    {
      var frame := NewFrame(picture);
      Enqueue(frame);
    }

    method NewFrame(picture: Option<nat>) returns (frame: Frame)
      modifies this`serial
      ensures frame == Frame(picture, old(serial)) && Snap() == Numbered(old(Snap()))
    {
      frame := Frame(picture, serial);
      serial := serial + 1;
    }

    method Enqueue(frame: Frame)
      modifies this`ready, this`decodeCb, this`log
      ensures Snap() == D.Enqueue(old(Snap()), frame)
    {
      if resetCb.Some? {
        log := log.(held := log.held + PictureOf(frame));
        return;
      }
      Push(frame);
      DeliverFrame();
    }

    method Push(frame: Frame)
      modifies this`ready
      ensures Snap() == old(Snap()).(ready := old(ready) + [frame])
    {
      ready := ready + [frame];
    }

    method TriggerFrameDelivery()
      requires ready != []
      modifies this`ready, this`decodeCb, this`log
      ensures Snap() == Trigger(old(Snap()))
    {
      if resetCb.Some? { return; }
      DeliverFrame();
    }

    method ClearReadyFrames()
      modifies this`ready, this`log
      ensures Snap() == ClearReady(old(Snap()))
    {
      log := log.(held := log.held + Pictures(ready));
      ready := [];
    }

    method Decode(endOfStream: bool, shm: bool, decodeCallback: nat)
      requires Valid() && decodeCallback == log.requests
      modifies this
      ensures Valid() && Snap() == D.Decode(old(Snap()), endOfStream, shm)
    {
      StoreCallback(decodeCallback);
      AcceptBuffer(endOfStream, shm);
    }

    method StoreCallback(decodeCallback: nat)
      requires decodeCallback == log.requests
      modifies this`decodeCb, this`log
      ensures Snap() == Ask(old(Snap()))
    {
      decodeCb := Some(decodeCallback);
      log := log.(requests := log.requests + 1);
    }

    method AcceptBuffer(endOfStream: bool, shm: bool)
      requires Valid() && decodeCb.Some?
      modifies this
      ensures Valid() && Snap() == Accept(old(Snap()), endOfStream, shm)
    {
      if mode == Error || !vda {
        RunDecodeCb(DecodeError, None);
        return;
      }
      DecodeInMode(endOfStream, shm);
    }

    method DecodeInMode(endOfStream: bool, shm: bool)
      requires Valid() && decodeCb.Some? && mode != Error
      modifies this
      ensures Valid() && Snap() == InMode(old(Snap()), endOfStream, shm)
    {
      match mode {
        case DecoderDrained =>
          if |ready| > 0 {
            TriggerFrameDelivery();
            return;
          }
          mode := Normal;
        case Normal =>
        case DrainingDecoder => return;
      }
      SubmitBuffer(endOfStream, shm);
    }

    method SubmitBuffer(endOfStream: bool, shm: bool)
      requires Valid() && decodeCb.Some? && mode == Normal
      modifies this
      ensures Valid() && Snap() == Submit(old(Snap()), endOfStream, shm)
    {
      if endOfStream {
        mode := DrainingDecoder;
        if |ready| > 0 { TriggerFrameDelivery(); }
        return;
      }
      if !shm {
        RunDecodeCb(DecodeError, None);
        return;
      }
      TakeBuffer();
      AnswerSubmitted();
    }

    method TakeBuffer()
      modifies this`inDecoder, this`nextBitstream
      ensures Snap() == WithBuffer(old(Snap()))
    {
      inDecoder := inDecoder + {nextBitstream};
      nextBitstream := (nextBitstream + 1) % 0x4000_0000;
    }

    method AnswerSubmitted()
      requires decodeCb.Some?
      modifies this`ready, this`decodeCb, this`log
      ensures Snap() == Submitted(old(Snap()))
    {
      if |ready| > 0 {
        TriggerFrameDelivery();
        return;
      }
      if |inDecoder| < MAX_IN_FLIGHT { RunDecodeCb(NotEnoughData, None); }
    }

    method Reset(closure: nat, aborted: bool)
      requires Valid()
      modifies this
      ensures Valid() && Snap() == D.Reset(old(Snap()), closure, aborted)
    {
      if mode == DrainingDecoder && !aborted {
        DeferReset(closure);
        return;
      }
      ClearReadyFrames();
      StartReset(closure);
    }

    method DeferReset(closure: nat)
      modifies this`ready, this`log
      ensures Snap() == Defer(old(Snap()), closure)
    {
      log := log.(deferred := log.deferred + [closure]);
      if decodeCb == None { ClearReadyFrames(); }
    }

    method StartReset(closure: nat)
      modifies this`ready, this`decodeCb, this`log, this`serial, this`resetCb
      ensures Snap() == D.StartReset(old(Snap()), closure)
    {
      if !vda {
        log := log.(resets := log.resets + [closure]);
        return;
      }
      EndPendingDecode();
      resetCb := Some(closure);
    }

    method RunPendingResetCb()
      modifies this`resetCb, this`log
      ensures Snap() == RunResetCb(old(Snap()))
    {
      if resetCb.Some? {
        log := log.(resets := log.resets + [resetCb.value]);
        resetCb := None;
      }
    }

    method Stop(closure: nat)
      requires Valid()
      modifies this
      ensures Valid() && Snap() == D.Stop(old(Snap()), closure)
    {
      EndVDA();
      EndPendingDecode();
      RunPendingResetCb();
      RunStopCb(closure);
    }

    method RunStopCb(closure: nat)
      modifies this`log
      ensures Snap() == Stopped(old(Snap()), closure)
    {
      log := log.(stopped := true, stops := log.stops + [closure]);
    }

    /** An empty frame for the pending Decode, if there is one. */
    method EndPendingDecode()
      modifies this`ready, this`decodeCb, this`log, this`serial
      ensures Snap() == EndPending(old(Snap()))
    {
      if decodeCb.Some? { EnqueueFrameAndTriggerFrameDelivery(None); }
    }

    method NotifyError()
      requires Valid()
      modifies this
      ensures Valid() && Snap() == D.NotifyError(old(Snap()))
    {
      if !vda { return; }
      DestroyVDA();
      mode := Error;
      if decodeCb.Some? { RunDecodeCb(DecodeError, None); }
    }

    method ProvidePictureBuffers(textures: Option<seq<nat>>)
      requires Valid()
      modifies this
      ensures Valid() && Snap() == D.ProvidePictureBuffers(old(Snap()), textures)
    {
      if textures == None {
        NotifyError();
        return;
      }
      if !vda { return; }
      AssignNew(textures.value);
      available := available + |textures.value|;
    }

    /** Files the new pictures. */
    method AssignNew(textures: seq<nat>)
      requires Valid()
      modifies this`nextPicture, this`assignedBuffers, this`log
      ensures Valid() && nextPicture == old(nextPicture) + |textures|
      ensures assignedBuffers == old(assignedBuffers) + NewPictures(old(nextPicture), textures)
      ensures log == old(log).(recorded := old(log.recorded) + NewPictures(old(nextPicture), textures),
                               owned := old(log.owned) + NewPictures(old(nextPicture), textures).Keys)
    {
      ghost var added := NewPictures(nextPicture, textures);
      log := log.(recorded := log.recorded + added, owned := log.owned + added.Keys);
      AddedIsMore(assignedBuffers, nextPicture, textures, |textures|);
      FiledMore(assignedBuffers, nextPicture, textures);
      AssignAll(textures);
    }

    method AssignAll(textures: seq<nat>)
      modifies this`nextPicture, this`assignedBuffers
      ensures nextPicture == old(nextPicture) + |textures|
      ensures assignedBuffers == Added(old(assignedBuffers), old(nextPicture), textures, |textures|)
    {
      for i := 0 to |textures|
        invariant nextPicture == old(nextPicture) + i
        invariant assignedBuffers == Added(old(assignedBuffers), old(nextPicture), textures, i)
      {
        assignedBuffers := assignedBuffers[nextPicture := Picture(nextPicture, textures[i])];
        nextPicture := nextPicture + 1;
      }
    }

    method DismissPictureBuffer(id: nat)
      requires Valid()
      modifies this
      ensures Valid() && Snap() == D.DismissPictureBuffer(old(Snap()), id)
    {
      if id !in assignedBuffers { return; }
      var bufferToDismiss := assignedBuffers[id];
      assignedBuffers, log := assignedBuffers - {id}, log.(owned := log.owned - {id});
      if id !in atDisplay {
        DeleteDismissed(bufferToDismiss);
      } else {
        dismissed := dismissed[id := bufferToDismiss];
      }
    }

    method DeleteDismissed(buffer: Picture)
      modifies this`log, this`available
      ensures available == old(available) - 1
      ensures log == old(log).(deleted := old(log.deleted) + multiset{buffer},
                               failed := old(log.failed) || old(available) <= 0)
    {
      log := log.(deleted := log.deleted + multiset{buffer}, failed := log.failed || available <= 0);
      available := available - 1;
    }

    method PictureReady(id: nat)
      requires Valid()
      modifies this
      ensures Valid() && Snap() == D.PictureReady(old(Snap()), id)
    {
      if id !in assignedBuffers {
        NotifyError();
        return;
      }
      TakePicture(id);
      EnqueueFrameAndTriggerFrameDelivery(Some(id));
    }

    method TakePicture(id: nat)
      modifies this`log, this`available, this`atDisplay
      ensures Snap() == Taken(old(Snap()), id)
    {
      log := log.(failed := log.failed || available <= 0, owned := log.owned - {id});
      available := available - 1;
      atDisplay := atDisplay + {id};
    }

    method ReusePictureBuffer(id: nat)
      requires Valid()
      modifies this
      ensures Valid() && Snap() == D.ReusePictureBuffer(old(Snap()), id)
    {
      log := log.(held := log.held - {id});
      if !vda { return; }
      TakeFromDisplay(id);
      if id !in assignedBuffers {
        DeletePostponed(id);
        return;
      }
      available := available + 1;
      log := log.(owned := log.owned + {id});
    }

    method TakeFromDisplay(id: nat)
      modifies this`log, this`atDisplay
      ensures Snap() == old(Snap()).(failed := old(log.failed) || old(atDisplay) == {},
                                     atDisplay := old(atDisplay) - {id})
    {
      log := log.(failed := log.failed || atDisplay == {});
      atDisplay := atDisplay - {id};
    }

    /** Deletes the texture of a picture dismissed while at display. */
    method DeletePostponed(id: nat)
      modifies this`log, this`dismissed
      ensures Snap() ==
        if id in old(dismissed) then
          old(Snap()).(deleted := old(log.deleted) + multiset{old(dismissed)[id]}, dismissed := old(dismissed) - {id})
        else old(Snap()).(failed := true)
    {
      if id in dismissed {
        log := log.(deleted := log.deleted + multiset{dismissed[id]});
        dismissed := dismissed - {id};
      } else {
        log := log.(failed := true);
      }
    }

    method NotifyEndOfBitstreamBuffer(id: nat)
      requires Valid()
      modifies this
      ensures Valid() && Snap() == D.NotifyEndOfBitstreamBuffer(old(Snap()), id)
    {
      if id !in inDecoder {
        NotifyError();
        return;
      }
      inDecoder := inDecoder - {id};
      if resetCb == None && mode != DrainingDecoder && |inDecoder| < MAX_IN_FLIGHT && decodeCb.Some? {
        RunDecodeCb(NotEnoughData, None);
      }
    }

    method NotifyFlushDone()
      requires Valid()
      modifies this
      ensures Valid() && Snap() == D.NotifyFlushDone(old(Snap()))
    {
      mode := DecoderDrained;
      EnqueueFrameAndTriggerFrameDelivery(None);
    }

    method NotifyResetDone()
      requires Valid()
      modifies this
      ensures Valid() && Snap() == D.NotifyResetDone(old(Snap()))
    {
      RunPendingResetCb();
      EndPendingDecode();
    }

    /** The destructor. */
    method Destruct()
      requires Valid()
      modifies this
      ensures Valid() && Snap() == Destructed(old(Snap()))
    {
      inDecoder := {};
      DestroyPictureBuffers(assignedBuffers);
      DestroyPictureBuffers(dismissed);
      assignedBuffers, dismissed := map[], map[];
    }
  }

  datatype Log = Log(requests: nat, answers: seq<Answer>, deferred: seq<nat>, resets: seq<nat>, stops: seq<nat>,
      deleted: multiset<Picture>,
                     failed: bool, stopped: bool, recorded: map<nat, Picture>, owned: set<nat>, held: set<nat>)

  ghost predicate Filed(buffers: map<nat, Picture>) {
    forall id :: id in buffers ==> buffers[id].id == id
  }

  /** `base` with the first `k` new pictures. */
  ghost function Added(base: map<nat, Picture>, next: nat, textures: seq<nat>, k: nat): map<nat, Picture>
    requires k <= |textures|
  {
    if k == 0 then base else Added(base, next, textures, k - 1)[next + k - 1 := Picture(next + k - 1, textures[k - 1])]
  }

  lemma {:induction false} AddedIsMore(base: map<nat, Picture>, next: nat, textures: seq<nat>, k: nat)
    requires k <= |textures|
    ensures Added(base, next, textures, k) == base + FirstPictures(next, textures, k)
  {
    if k > 0 {
      AddedIsMore(base, next, textures, k - 1);
      MoreThenOne(base, FirstPictures(next, textures, k - 1), next + k - 1, Picture(next + k - 1, textures[k - 1]));
    }
  }

  lemma MoreThenOne(a: map<nat, Picture>, b: map<nat, Picture>, id: nat, p: Picture)
    ensures (a + b)[id := p] == a + b[id := p]
  {
  }

  lemma FiledMore(a: map<nat, Picture>, next: nat, textures: seq<nat>)
    requires Filed(a)
    ensures Filed(a + NewPictures(next, textures))
  {
    NewPicturesAre(next, textures, |textures|);
  }

  lemma TakeOne(buffers: map<nat, Picture>, id: nat)
    requires Filed(buffers) && id in buffers
    ensures multiset(buffers.Values) == multiset{buffers[id]} + multiset((buffers - {id}).Values)
    ensures |buffers - {id}| < |buffers|
  {
    var rest := buffers - {id};
    assert rest.Keys == buffers.Keys - {id};
    forall p ensures p in buffers.Values <==> p in rest.Values || p == buffers[id] {
      if p in buffers.Values && p != buffers[id] {
        var k :| k in buffers && buffers[k] == p;
        assert k in rest && rest[k] == p;
      }
    }
    assert forall k :: k in rest ==> rest[k].id == k != id;
    assert buffers[id].id == id;
    assert buffers.Values == rest.Values + {buffers[id]};
  }
}
