/** Which Resets the GPU video decoder answers, and which textures it deletes, over whole runs. */
module DecoderResets {
  import opened Trees
  import opened DecoderStates
  import opened DecoderRuns

  // ---- every Reset is accounted for ----

  /** The closures of the Reset calls among the first `i` events, in call order. */
  ghost function Calls(events: seq<Event>, i: nat): seq<nat>
    requires i <= |events|
  {
    if i == 0 then [] else Calls(events, i - 1) + if events[i - 1].ResetCall? then [events[i - 1].closure] else []
  }

  /** The Resets answered, pending in the accelerator, and deferred. */
  function Asked(s: State): seq<nat> {
    s.resets + (if s.resetCb.Some? then [s.resetCb.value] else []) + s.deferred
  }

  lemma RunCallbacks(states: seq<State>, events: seq<Event>, i: nat)
    requires Run(states, events) && i <= |events|
    ensures Callbacks(states[i])
  {
    RunInv(states, events, i);
  }

  /** What Reset leaves of the closures: deferred, answered at once, or pending in the accelerator. */
  lemma ResetGoes(s: State, closure: nat, aborted: bool)
    requires s.resetCb == None && s.deferred == []
    ensures var r := Reset(s, closure, aborted);
      if s.mode == DrainingDecoder && !aborted then r.deferred == [closure] && r.resets == s.resets && r.resetCb == None
      else if s.vda then r.deferred == [] && r.resets == s.resets && r.resetCb == Some(closure)
      else r.deferred == [] && r.resets == s.resets + [closure] && r.resetCb == None
  {
  }

  /** Events other than Reset calls, retries, the end of a reset and Stop leave the closures alone. */
  lemma OthersLeave(s: State, e: Event)
    requires !e.ResetCall? && !e.DeferredReset? && !e.ResetDone? && !e.StopCall?
    ensures PendingOf(Next(s, e)) == PendingOf(s)
  {
  }

  /** Stop and the end of a reset answer the pending Reset. */
  lemma Answers(s: State, closure: nat)
    ensures PendingOf(Stop(s, closure)) == PendingOf(RunResetCb(s))
    ensures PendingOf(NotifyResetDone(s)) == PendingOf(RunResetCb(s))
  {
  }

  lemma AskedStep(s: State, e: Event)
    requires Callbacks(s) && Legal(s, e)
    ensures Asked(Next(s, e)) == Asked(s) + if e.ResetCall? then [e.closure] else []
  {
    match e
    case ResetCall(closure, aborted) => ResetGoes(s, closure, aborted);
    case DeferredReset(aborted) =>
      assert s.deferred == [s.deferred[0]];
      ResetGoes(s.(deferred := s.deferred[1..]), s.deferred[0], aborted);
    case StopCall(closure) => Answers(s, closure);
    case ResetDone => Answers(s, 0);
    case _ => OthersLeave(s, e);
  }

  /** In every run the Resets called are, in call order, those answered, then the pending or deferred one: each
      is answered at most once, in call order, and all but the last have been answered. */
  lemma {:induction false} ResetsAnsweredInOrder(states: seq<State>, events: seq<Event>, i: nat)
    requires Run(states, events) && i <= |events|
    ensures Asked(states[i]) == Calls(events, i)
    ensures states[i].resets <= Calls(events, i) && |Calls(events, i)| - |states[i].resets| <= 1
    decreases i
  {
    RunCallbacks(states, events, i);
    if i > 0 {
      ResetsAnsweredInOrder(states, events, i - 1);
      RunCallbacks(states, events, i - 1);
      assert RunStep(states, events, i - 1);
      AskedStep(states[i - 1], events[i - 1]);
    }
  }

  /** When the accelerator has been reset, the pending Reset is answered, and with it every Reset called. */
  lemma ResetDoneAnswers(states: seq<State>, events: seq<Event>, i: nat)
    requires Run(states, events) && i < |events| && events[i].ResetDone?
    ensures states[i].resetCb.Some? && states[i + 1].resetCb == None
    ensures states[i + 1].resets == states[i].resets + [states[i].resetCb.value] == Calls(events, i + 1)
  {
    ResetsAnsweredInOrder(states, events, i + 1);
    RunCallbacks(states, events, i);
    assert RunStep(states, events, i);
    Answers(states[i], 0);
  }

  /** What a Reset call leaves: put off while draining, unless aborted; answered at once without an accelerator;
      and otherwise pending until the accelerator has been reset. */
  lemma ResetCalled(states: seq<State>, events: seq<Event>, i: nat)
    requires Run(states, events) && i < |events| && events[i].ResetCall?
    ensures var s, r, e := states[i], states[i + 1], events[i];
      && r.deferred == (if s.mode == DrainingDecoder && !e.aborted then [e.closure] else [])
      && r.resetCb == (if r.deferred == [] && s.vda then Some(e.closure) else None)
      && r.resets == (if r.deferred == [] && !s.vda then s.resets + [e.closure] else s.resets)
  {
    assert RunStep(states, events, i);
    ResetGoes(states[i], events[i].closure, events[i].aborted);
  }

  /** Stop leaves every Reset answered exactly if none is deferred at the call. */
  lemma StopAnswersAllIff(states: seq<State>, events: seq<Event>, i: nat)
    requires Run(states, events) && i < |events| && events[i].StopCall?
    ensures states[i + 1].resets == Calls(events, i + 1) <==> states[i].deferred == []
    ensures states[i + 1].deferred == states[i].deferred && states[i + 1].resetCb == None
  {
    ResetsAnsweredInOrder(states, events, i + 1);
    assert RunStep(states, events, i);
    Answers(states[i], events[i].closure);
  }

  // ---- a Reset deferred at Stop ----

  /** A retry that the stopped decoder carries out: it is not draining, or the factories have been aborted. */
  predicate CarriedOut(mode: Mode, e: Event) {
    e.DeferredReset? && (mode != DrainingDecoder || e.aborted)
  }

  lemma StoppedStep(s: State, e: Event)
    requires Callbacks(s) && s.stopped && Legal(s, e)
    ensures var r := Next(s, e);
      && r.stopped && r.mode == s.mode
      && (CarriedOut(s.mode, e) ==> r.deferred == [] && r.resets == s.resets + s.deferred)
      && (!CarriedOut(s.mode, e) ==> r.deferred == s.deferred && r.resets == s.resets)
  {
    match e
    case DeferredReset(aborted) =>
      assert s.deferred == [s.deferred[0]];
      ResetGoes(s.(deferred := s.deferred[1..]), s.deferred[0], aborted);
    case _ => OthersLeave(s, e);
  }

  lemma StoppedTurn(states: seq<State>, events: seq<Event>, k: nat)
    requires Run(states, events) && k < |events| && states[k].stopped
    ensures var s, r := states[k], states[k + 1];
      && r.stopped && r.mode == s.mode
      && (CarriedOut(s.mode, events[k]) ==> r.deferred == [] && r.resets == s.resets + s.deferred)
      && (!CarriedOut(s.mode, events[k]) ==> r.deferred == s.deferred && r.resets == s.resets)
  {
    RunCallbacks(states, events, k);
    assert RunStep(states, events, k);
    StoppedStep(states[k], events[k]);
  }

  lemma StopStops(states: seq<State>, events: seq<Event>, i: nat)
    requires Run(states, events) && i < |events| && events[i].StopCall?
    ensures states[i + 1].stopped
  {
    assert RunStep(states, events, i);
  }

  /** After Stop a deferred Reset is answered by a given moment if and only if it has been tried again, by then,
      outside draining or with aborted factories. (A decoder stopped while draining stays in that mode, so
      without an abort the Reset is posted anew for ever.) */
  lemma {:induction false} DeferredAnsweredIff(states: seq<State>, events: seq<Event>, i: nat, j: nat)
    requires Run(states, events) && i < j <= |events| && events[i].StopCall?
    ensures states[j].stopped && states[j].mode == states[i + 1].mode
    ensures if exists k :: i < k < j && CarriedOut(states[i + 1].mode, events[k])
            then states[j].deferred == [] && states[j].resets == states[i + 1].resets + states[i + 1].deferred
            else states[j].deferred == states[i + 1].deferred && states[j].resets == states[i + 1].resets
    decreases j
  {
    if j > i + 1 {
      DeferredAnsweredIff(states, events, i, j - 1);
      StoppedTurn(states, events, j - 1);
    } else {
      StopStops(states, events, i);
    }
  }

  // ---- a Reset pending when the accelerator fails ----

  /** Once the accelerator is gone, only Stop answers a pending Reset. */
  lemma GoneStep(s: State, e: Event)
    requires Callbacks(s) && !s.vda && (s.resetCb.Some? || (s.stopped && s.deferred == [])) && Legal(s, e)
    ensures var r := Next(s, e);
      && !r.vda && (s.stopped ==> r.stopped) && r.deferred == []
      && (e.StopCall? ==> r.stopped && PendingOf(r) == PendingOf(RunResetCb(s)))
      && (!e.StopCall? ==> PendingOf(r) == PendingOf(s))
  {
    match e
    case StopCall(closure) => Answers(s, closure);
    case _ => OthersLeave(s, e);
  }

  /** A Reset that is pending when the accelerator is lost, by an error of its own or because textures cannot be
      created, is answered by a given moment if and only if Stop has been called by then; until then it stays
      pending. */
  lemma {:induction false} PendingAnsweredIff(states: seq<State>, events: seq<Event>, i: nat, j: nat)
    requires Run(states, events) && i < j <= |events|
    requires states[i].vda && states[i].resetCb.Some? && !states[i + 1].vda && !events[i].StopCall?
    ensures !states[j].vda && states[j].deferred == []
    ensures if exists k :: i < k < j && events[k].StopCall?
            then states[j].stopped && states[j].resetCb == None &&
              states[j].resets == states[i].resets + [states[i].resetCb.value]
            else states[j].resetCb == states[i].resetCb && states[j].resets == states[i].resets
    decreases j
  {
    RunCallbacks(states, events, j - 1);
    assert RunStep(states, events, j - 1);
    if j > i + 1 {
      PendingAnsweredIff(states, events, i, j - 1);
      GoneStep(states[j - 1], events[j - 1]);
    } else {
      LossStep(states[i], events[i]);
    }
  }

  lemma LossStep(s: State, e: Event)
    requires Callbacks(s) && s.vda && s.resetCb.Some? && Legal(s, e) && !Next(s, e).vda && !e.StopCall?
    ensures PendingOf(Next(s, e)) == PendingOf(s)
  {
    if !e.ResetDone? { OthersLeave(s, e); }
  }

  // ---- such runs exist ----

  /** A run with a Reset deferred when Stop comes during draining. */
  lemma StoppedWhileDraining()
    ensures var s0, e0, e1, e2 := Initial(true), DecodeCall(true, true), ResetCall(0, false), StopCall(0);
      var s1, s2, s3 := Next(s0, e0), Next(Next(s0, e0), e1), Next(Next(Next(s0, e0), e1), e2);
      && Run([s0, s1, s2, s3], [e0, e1, e2])
      && s3.stopped && s3.mode == DrainingDecoder && s3.deferred == [0] && s3.resets == []
  {
    var s0, e0, e1, e2 := Initial(true), DecodeCall(true, true), ResetCall(0, false), StopCall(0);
    var s1 := Next(s0, e0);
    var s2 := Next(s1, e1);
    var states, events := [s0, s1, s2, Next(s2, e2)], [e0, e1, e2];
    assert RunStep(states, events, 0) && RunStep(states, events, 1) && RunStep(states, events, 2);
  }

  /** A run with a Reset pending when the accelerator fails. */
  lemma FailedWhileResetting()
    ensures var s0, e0, e1 := Initial(true), ResetCall(0, false), Failure;
      var s1, s2 := Next(s0, e0), Next(Next(s0, e0), e1);
      && Run([s0, s1, s2], [e0, e1])
      && s1.vda && s1.resetCb == Some(0) && !s2.vda && s2.resetCb == Some(0) && s2.resets == []
  {
    var s0, e0, e1 := Initial(true), ResetCall(0, false), Failure;
    var s1 := Next(s0, e0);
    var states, events := [s0, s1, Next(s1, e1)], [e0, e1];
    assert RunStep(states, events, 0) && RunStep(states, events, 1);
  }

  // ---- every texture created ----

  function TexturesIn(e: Event): nat {
    if e.Provide? && e.textures.Some? then |e.textures.value| else 0
  }

  /** The textures created by the first `i` events. */
  ghost function Created(events: seq<Event>, i: nat): nat
    requires i <= |events|
  {
    if i == 0 then 0 else Created(events, i - 1) + TexturesIn(events[i - 1])
  }

  /** Those among them that were created when the accelerator was gone. */
  ghost function Dropped(states: seq<State>, events: seq<Event>, i: nat): nat
    requires i <= |events| && i <= |states|
  {
    if i == 0 then 0
    else Dropped(states, events, i - 1) + if states[i - 1].vda then 0 else TexturesIn(events[i - 1])
  }

  lemma {:induction false} ValuesCount(m: map<nat, Picture>)
    requires forall id :: id in m ==> m[id].id == id
    ensures |m.Values| == |m|
    decreases |m|
  {
    if m != map[] {
      var id :| id in m;
      var rest := m - {id};
      assert rest.Keys == m.Keys - {id};
      ValuesCount(rest);
      ValuesSplit(m, id);
    }
  }

  lemma ValuesSplit(m: map<nat, Picture>, id: nat)
    requires id in m && forall k :: k in m ==> m[k].id == k
    ensures m.Values == (m - {id}).Values + {m[id]} && m[id] !in (m - {id}).Values
  {
    var rest := m - {id};
    forall p ensures p in m.Values <==> p in rest.Values || p == m[id] {
      if p in m.Values && p != m[id] {
        var k :| k in m && m[k] == p;
        assert k in rest && rest[k] == p;
      }
    }
    assert forall k :: k in rest ==> rest[k].id == k != id;
  }

  lemma RecordedStep(s: State, e: Event)
    requires Ledger(s) && (e.DeferredReset? ==> s.deferred != [])
    ensures |Next(s, e).recorded| == |s.recorded| + if s.vda then TexturesIn(e) else 0
  {
    if e.Provide? && e.textures.Some? && s.vda {
      var ts := e.textures.value;
      var added := NewPictures(s.nextPicture, ts);
      NewPicturesAre(s.nextPicture, ts, |ts|);
      forall id | id in added ensures id !in s.recorded { NewIsFresh(s, ts, id); }
      DisjointUnion(s.recorded, added);
    } else {
      OthersRecordNothing(s, e);
    }
  }

  lemma DisjointUnion(a: map<nat, Picture>, b: map<nat, Picture>)
    requires forall id :: id in b ==> id !in a
    ensures |a + b| == |a| + |b|
  {
    assert (a + b).Keys == a.Keys + b.Keys && a.Keys !! b.Keys;
  }

  lemma OthersRecordNothing(s: State, e: Event)
    requires e.DeferredReset? ==> s.deferred != []
    requires !(e.Provide? && e.textures.Some? && s.vda)
    ensures Next(s, e).recorded == s.recorded
  {
  }

  lemma RecordedTurn(states: seq<State>, events: seq<Event>, i: nat)
    requires AnyRun(states, events) && i < |events|
    ensures |states[i + 1].recorded| == |states[i].recorded| + if states[i].vda then TexturesIn(events[i]) else 0
  {
    LedgerThroughout(states, events, i);
    assert AnyStep(states, events, i);
    RecordedStep(states[i], events[i]);
  }

  lemma {:induction false} RecordedAre(states: seq<State>, events: seq<Event>, i: nat)
    requires AnyRun(states, events) && i <= |events|
    ensures |states[i].recorded| + Dropped(states, events, i) == Created(events, i)
    decreases i
  {
    if i > 0 {
      RecordedAre(states, events, i - 1);
      RecordedTurn(states, events, i - 1);
    }
  }

  lemma DeletedAreRecorded(s: State)
    requires Ledger(s)
    ensures |Destructed(s).deleted| == |s.recorded|
  {
    var d := Destructed(s).deleted;
    forall p ensures d[p] == multiset(s.recorded.Values)[p] {
      if p in s.recorded.Values {
        var id :| id in s.recorded && s.recorded[id] == p;
        DeletedInTheEnd(s, id);
      } else if p in d {
        OnlyRecorded(s, p);
      }
    }
    assert d == multiset(s.recorded.Values);
    ValuesCount(s.recorded);
  }

  lemma OnlyRecorded(s: State, p: Picture)
    requires Ledger(s) && p in Destructed(s).deleted
    ensures p in s.recorded.Values
  {
    if p in s.deleted {
      assert Recorded(s, p);
    } else if p in s.assignedBuffers.Values {
      var id :| id in s.assignedBuffers && s.assignedBuffers[id] == p;
      assert Recorded(s, s.assignedBuffers[id]);
    } else {
      var id :| id in s.dismissed && s.dismissed[id] == p;
      assert Recorded(s, s.dismissed[id]);
    }
  }

  /** Whatever client and accelerator do: once the destructor has run, as many textures have been deleted as were
      created, except those created when the accelerator was gone, of which none is. So all are deleted if and
      only if none was created then, as in every run in which the accelerator keeps to its contract. */
  lemma TexturesDeletedInTheEnd(states: seq<State>, events: seq<Event>, i: nat)
    requires AnyRun(states, events) && i <= |events|
    ensures |Destructed(states[i]).deleted| + Dropped(states, events, i) == Created(events, i)
    ensures |Destructed(states[i]).deleted| == Created(events, i) <==> Dropped(states, events, i) == 0
    ensures Run(states, events) ==> Dropped(states, events, i) == 0
  {
    RecordedAre(states, events, i);
    TexturesAccounted(states, events, i);
    DeletedAreRecorded(states[i]);
    if Run(states, events) { NothingDropped(states, events, i); }
  }

  lemma {:induction false} NothingDropped(states: seq<State>, events: seq<Event>, i: nat)
    requires Run(states, events) && i <= |events|
    ensures Dropped(states, events, i) == 0
    decreases i
  {
    if i > 0 {
      NothingDropped(states, events, i - 1);
      assert RunStep(states, events, i - 1);
    }
  }
}
