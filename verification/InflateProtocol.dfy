/** Rebuilding buffers from chunks with several workers.

    The page keeps a queue of chunks. Each worker it launches takes one chunk off the queue, expands it
    and posts the result; on each result the page copies it into its buffer, counts it, and gives the
    worker the next chunk or stops the worker. Results may arrive in any order. */
module InflateProtocol {
  import opened Sparse
  import opened Chunks

  /** A file of the summary: a chunk of one buffer. */
  datatype File = File(buffer: nat, chunk: SparseArray)

  datatype Range = Range(lo: nat, hi: nat)

  /** What is to be rebuilt, the files in the order of the summary, and the range each accounts for. */
  datatype Job = Job(sources: seq<seq<int>>, files: seq<File>, ranges: seq<Range>)

  ghost predicate FileOk(job: Job, c: nat) {
    && c < |job.files| && c < |job.ranges| && job.files[c].buffer < |job.sources|
    && ChunkOk(job.sources[job.files[c].buffer], job.files[c].chunk.dense, job.ranges[c].lo, job.ranges[c].hi)
  }

  /** File `c` accounts for index `x` of buffer `b`. */
  ghost predicate Accounts(job: Job, c: nat, b: nat, x: nat) {
    c < |job.files| && c < |job.ranges| && job.files[c].buffer == b && job.ranges[c].lo <= x < job.ranges[c].hi
  }

  ghost predicate Accounted(job: Job, b: nat, x: nat) {
    exists c :: Accounts(job, c, b, x)
  }

  ghost predicate AllAccounted(job: Job, b: nat) {
    b < |job.sources| && forall x :: 0 <= x < |job.sources[b]| ==> Accounted(job, b, x)
  }

  ghost predicate FilesOk(job: Job) {
    |job.ranges| == |job.files| && forall c :: 0 <= c < |job.files| ==> FileOk(job, c)
  }

  ghost predicate JobOk(job: Job) {
    && FilesOk(job)
    && forall b :: 0 <= b < |job.sources| ==> AllAccounted(job, b)
  }

  // ---- writing the files ----

  /** The chunks of each buffer in turn, buffer by buffer. */
  method Summarize(sources: seq<seq<int>>, minBlockSize: nat, minFileSize: nat)
    returns (files: seq<File>, ghost ranges: seq<Range>)
    ensures JobOk(Job(sources, files, ranges)) && |sources| <= |files|
  {
    files, ranges := [], [];
    for b := 0 to |sources|
      invariant FilesOk(Job(sources, files, ranges)) && b <= |files|
      invariant forall d :: 0 <= d < b ==> AllAccounted(Job(sources, files, ranges), d)
    {
      ghost var before := Job(sources, files, ranges);
      var chunks, cuts, _ := DeflateMT(sources[b], minBlockSize, minFileSize);
      files, ranges := AddFiles(sources, files, ranges, b, chunks, cuts);
      ghost var after := Job(sources, files, ranges);
      forall d | 0 <= d <= b ensures AllAccounted(after, d) {
        assert d < b ==> AllAccounted(before, d);
      }
    }
  }

  method AddFiles(ghost sources: seq<seq<int>>, files: seq<File>, ghost ranges: seq<Range>,
                  b: nat, chunks: seq<SparseArray>, ghost cuts: seq<nat>)
    returns (files': seq<File>, ghost ranges': seq<Range>)
    requires b < |sources| && Partitioned(sources[b], chunks, cuts)
    requires FilesOk(Job(sources, files, ranges))
    ensures FilesOk(Job(sources, files', ranges')) && |files'| == |files| + |chunks|
    ensures forall d, x :: Accounted(Job(sources, files, ranges), d, x) ==>
      Accounted(Job(sources, files', ranges'), d, x)
    ensures forall x :: 0 <= x < |sources[b]| ==> Accounted(Job(sources, files', ranges'), b, x)
  {
    files', ranges' := files, ranges;
    for fileIdx := 0 to |chunks|
      invariant FilesOk(Job(sources, files', ranges')) && |files'| == |files| + fileIdx
      invariant forall d, x :: Accounted(Job(sources, files, ranges), d, x) ==>
        Accounted(Job(sources, files', ranges'), d, x)
      invariant forall x :: 0 <= x < cuts[fileIdx] ==> Accounted(Job(sources, files', ranges'), b, x)
    {
      var nfo := File(b, chunks[fileIdx]);
      AddFile(Job(sources, files', ranges'), nfo, Range(cuts[fileIdx], cuts[fileIdx + 1]));
      files', ranges' := files' + [nfo], ranges' + [Range(cuts[fileIdx], cuts[fileIdx + 1])];
    }
  }

  lemma AddFile(job: Job, nfo: File, range: Range)
    requires FilesOk(job) && nfo.buffer < |job.sources|
    requires ChunkOk(job.sources[nfo.buffer], nfo.chunk.dense, range.lo, range.hi)
    ensures var job' := Job(job.sources, job.files + [nfo], job.ranges + [range]);
      && FilesOk(job')
      && (forall b, x :: Accounted(job, b, x) ==> Accounted(job', b, x))
      && (forall x :: range.lo <= x < range.hi ==> Accounted(job', nfo.buffer, x))
  {
    var job' := Job(job.sources, job.files + [nfo], job.ranges + [range]);
    forall c | 0 <= c < |job'.files| ensures FileOk(job', c) {
      assert c < |job.files| ==> FileOk(job, c);
    }
    forall b, x | Accounted(job, b, x) ensures Accounted(job', b, x) {
      var c :| Accounts(job, c, b, x);
      assert Accounts(job', c, b, x);
    }
    forall x | range.lo <= x < range.hi ensures Accounted(job', nfo.buffer, x) {
      assert Accounts(job', |job.files|, nfo.buffer, x);
    }
  }

  // ---- the states of the page ----

  datatype State = State(
    q: seq<nat>,                  // the files nobody has taken yet
    flying: map<nat, nat>,        // the file each busy worker has
    written: set<nat>,            // the files copied into their buffers
    buffers: seq<seq<int>>,
    ready: nat,                   // results received
    fired: nat)                   // calls of the completion callback

  datatype Message = Message(worker: nat, buffer: nat, start: nat, end: nat, dense: seq<int>)

  function NumWorkers(maxNumWorkers: nat): nat {
    if maxNumWorkers == 0 then 4 else maxNumWorkers
  }

  function NumLaunch(job: Job, maxNumWorkers: nat): nat {
    if NumWorkers(maxNumWorkers) < |job.files| then NumWorkers(maxNumWorkers) else |job.files|
  }

  /** Before the launch: the buffers are allocated and all files queued. */
  ghost function Loaded(job: Job): State {
    State(seq(|job.files|, i => i), map[], {},
          seq(|job.sources|, b requires 0 <= b < |job.sources| => seq(|job.sources[b]|, _ => 0)), 0, 0)
  }

  /** The first `p` workers have the first `p` files. */
  ghost function Busy(p: nat): (r: map<nat, nat>)
    ensures |r| == p && (forall w :: w in r <==> 0 <= w < p) && forall w :: w in r ==> r[w] == w
  {
    if p == 0 then map[] else
      var r := Busy(p - 1)[p - 1 := p - 1];
      assert r.Keys == Busy(p - 1).Keys + {p - 1};
      r
  }

  /** After the launch: every worker has taken the file at the front of the queue in its turn. */
  ghost function Launched(job: Job, maxNumWorkers: nat): State {
    var k := NumLaunch(job, maxNumWorkers);
    Loaded(job).(q := Loaded(job).q[k..], flying := Busy(k))
  }

  ghost predicate Expanded(job: Job, c: nat, m: Message)
    requires FileOk(job, c)
  {
    && m.buffer == job.files[c].buffer
    && Carries(job.sources[m.buffer], job.ranges[c].lo, job.ranges[c].hi, m.start, m.end, m.dense)
  }

  /** `m` is what a busy worker posts about its file. */
  ghost predicate Arrives(job: Job, s: State, m: Message) {
    && m.worker in s.flying && FileOk(job, s.flying[m.worker])
    && Expanded(job, s.flying[m.worker], m)
  }

  function Put(buffer: seq<int>, start: nat, dense: seq<int>): (r: seq<int>)
    requires start + |dense| <= |buffer|
    ensures |r| == |buffer|
    ensures forall x :: 0 <= x < |r| ==> r[x] == if start <= x < start + |dense| then dense[x - start] else buffer[x]
  {
    buffer[..start] + dense + buffer[start + |dense|..]
  }

  ghost predicate Sized(job: Job, s: State) {
    |s.buffers| == |job.sources| && forall b :: 0 <= b < |s.buffers| ==> |s.buffers[b]| == |job.sources[b]|
  }

  /** The page receives a result: copy, count, call back if it was the last, next file or stop. */
  ghost function Received(job: Job, s: State, m: Message): State
    requires Sized(job, s) && Arrives(job, s, m)
  {
    var c := s.flying[m.worker];
    State(if s.q == [] then [] else s.q[1..],
          if s.q == [] then s.flying - {m.worker} else s.flying[m.worker := s.q[0]],
          s.written + {c},
          s.buffers[m.buffer := Put(s.buffers[m.buffer], m.start, m.dense)],
          s.ready + 1,
          if s.ready + 1 == |job.files| then s.fired + 1 else s.fired)
  }

  // ---- what every step keeps ----

  /** Index `x` of buffer `b` is still zero or holds what the source holds; the latter if a file that
      accounts for it has been written. */
  ghost predicate Rebuilt(job: Job, s: State, b: nat, x: nat)
    requires Sized(job, s) && b < |s.buffers| && x < |s.buffers[b]|
  {
    && (s.buffers[b][x] == 0 || s.buffers[b][x] == job.sources[b][x])
    && forall c :: c in s.written && Accounts(job, c, b, x) ==> s.buffers[b][x] == job.sources[b][x]
  }

  ghost predicate Buffers(job: Job, s: State) {
    && Sized(job, s)
    && forall b, x :: 0 <= b < |s.buffers| && 0 <= x < |s.buffers[b]| ==> Rebuilt(job, s, b, x)
  }

  /** The files before `Taken` have left the queue, in order. */
  ghost function Taken(job: Job, s: State): int {
    |job.files| - |s.q|
  }

  ghost predicate Queue(job: Job, s: State) {
    |s.q| <= |job.files| && forall i :: 0 <= i < |s.q| ==> s.q[i] == Taken(job, s) + i
  }

  ghost predicate Flying(job: Job, s: State) {
    && (forall w :: w in s.flying ==> s.flying[w] < Taken(job, s) && s.flying[w] !in s.written)
    && (forall v, w :: v in s.flying && w in s.flying && s.flying[v] == s.flying[w] ==> v == w)
    && (forall c: nat :: c < Taken(job, s) ==> c in s.written || InFlight(s, c))
    && (forall c :: c in s.written ==> c < Taken(job, s))
  }

  ghost predicate InFlight(s: State, c: nat) {
    exists w :: w in s.flying && s.flying[w] == c
  }

  /** Every launched worker is busy as long as files are queued; the callback has been called once if
      all results are in, and otherwise not. */
  ghost predicate Counts(job: Job, launched: nat, s: State) {
    && |s.flying| <= launched && (s.q != [] ==> |s.flying| == launched)
    && s.ready == |s.written| && s.ready + |s.flying| + |s.q| == |job.files|
    && s.fired == if s.ready == |job.files| && |job.files| > 0 then 1 else 0
  }

  ghost predicate Inv(job: Job, launched: nat, s: State) {
    Buffers(job, s) && Queue(job, s) && Flying(job, s) && Counts(job, launched, s)
  }

  lemma LaunchedInv(job: Job, maxNumWorkers: nat)
    requires JobOk(job)
    ensures Inv(job, NumLaunch(job, maxNumWorkers), Launched(job, maxNumWorkers))
  {
    var s, k := Launched(job, maxNumWorkers), NumLaunch(job, maxNumWorkers);
    forall c: nat | c < k ensures InFlight(s, c) {
      assert c in s.flying && s.flying[c] == c;
    }
  }

  lemma ReceivedBuffers(job: Job, s: State, m: Message)
    requires Buffers(job, s) && Arrives(job, s, m)
    ensures Buffers(job, Received(job, s, m))
  {
    var s', c := Received(job, s, m), s.flying[m.worker];
    forall b, x | 0 <= b < |s'.buffers| && 0 <= x < |s'.buffers[b]| ensures Rebuilt(job, s', b, x) {
      assert Rebuilt(job, s, b, x);
      if b == m.buffer && m.start <= x < m.end {
        assert s'.buffers[b][x] == m.dense[x - m.start] == job.sources[b][x];
      } else {
        assert s'.buffers[b][x] == s.buffers[b][x];
      }
    }
  }

  lemma ReceivedFlying(job: Job, s: State, m: Message)
    requires Sized(job, s) && Arrives(job, s, m) && Queue(job, s) && Flying(job, s)
    ensures Queue(job, Received(job, s, m)) && Flying(job, Received(job, s, m))
  {
    ReceivedPlaces(job, s, m);
    assert s.q != [] ==> s.q[0] == Taken(job, s);
  }

  lemma ReceivedPlaces(job: Job, s: State, m: Message)
    requires Sized(job, s) && Arrives(job, s, m) && Queue(job, s)
    requires forall c: nat :: c < Taken(job, s) ==> c in s.written || InFlight(s, c)
    ensures var s' := Received(job, s, m); forall c: nat :: c < Taken(job, s') ==> c in s'.written || InFlight(s', c)
  {
    var s', c := Received(job, s, m), s.flying[m.worker];
    forall d: nat | d < Taken(job, s') ensures d in s'.written || InFlight(s', d) {
      if d == Taken(job, s) {
        assert m.worker in s'.flying && s'.flying[m.worker] == d;
      } else if d !in s.written && d != c {
        assert InFlight(s, d);
        var w :| w in s.flying && s.flying[w] == d;
        assert w in s'.flying && s'.flying[w] == d;
      }
    }
  }

  lemma ReceivedInv(job: Job, launched: nat, s: State, m: Message)
    requires Inv(job, launched, s) && Arrives(job, s, m)
    ensures Inv(job, launched, Received(job, s, m))
  {
    ReceivedBuffers(job, s, m);
    ReceivedFlying(job, s, m);
    ReceivedCounts(job, launched, s, m);
  }

  lemma ReceivedCounts(job: Job, launched: nat, s: State, m: Message)
    requires Sized(job, s) && Arrives(job, s, m) && Flying(job, s) && Counts(job, launched, s)
    ensures Counts(job, launched, Received(job, s, m))
  {
    var s' := Received(job, s, m);
    if s.q == [] {
      assert s'.flying.Keys == s.flying.Keys - {m.worker};
    } else {
      assert s'.flying.Keys == s.flying.Keys;
    }
  }

  // ---- runs ----

  /** `states` are the states after the launch and after each of the messages, which arrive in turn. */
  ghost predicate Run(job: Job, maxNumWorkers: nat, states: seq<State>, messages: seq<Message>) {
    && |states| == |messages| + 1 && states[0] == Launched(job, maxNumWorkers)
    && forall i :: 0 <= i < |messages| ==> RunStep(job, states, messages, i)
  }

  ghost predicate RunStep(job: Job, states: seq<State>, messages: seq<Message>, i: nat) {
    && i < |messages| && i + 1 < |states|
    && Sized(job, states[i]) && Arrives(job, states[i], messages[i])
    && states[i + 1] == Received(job, states[i], messages[i])
  }

  lemma {:induction false} RunInv(job: Job, maxNumWorkers: nat, states: seq<State>, messages: seq<Message>, i: nat)
    requires JobOk(job) && Run(job, maxNumWorkers, states, messages) && i <= |messages|
    ensures Inv(job, NumLaunch(job, maxNumWorkers), states[i]) && states[i].ready == i
    decreases i
  {
    if i == 0 {
      LaunchedInv(job, maxNumWorkers);
    } else {
      RunInv(job, maxNumWorkers, states, messages, i - 1);
      assert RunStep(job, states, messages, i - 1);
      ReceivedInv(job, NumLaunch(job, maxNumWorkers), states[i - 1], messages[i - 1]);
    }
  }

  /** At every moment of every run each file is in exactly one of three places, with at most one worker,
      and no more workers are busy than allowed. */
  lemma ExactlyOnePlace(job: Job, maxNumWorkers: nat, states: seq<State>, messages: seq<Message>, i: nat, c: nat)
    requires JobOk(job) && Run(job, maxNumWorkers, states, messages) && i <= |messages| && c < |job.files|
    ensures c in states[i].q || InFlight(states[i], c) || c in states[i].written
    ensures !(c in states[i].q && InFlight(states[i], c)) && !(c in states[i].q && c in states[i].written)
    ensures !(InFlight(states[i], c) && c in states[i].written)
    ensures forall v, w ::
      v in states[i].flying && w in states[i].flying && states[i].flying[v] == c == states[i].flying[w] ==> v == w
    ensures |states[i].flying| <= |job.files|
    ensures |states[i].flying| <= if maxNumWorkers > 0 then maxNumWorkers else 4
  {
    RunInv(job, maxNumWorkers, states, messages, i);
    var s := states[i];
    if c >= Taken(job, s) {
      assert s.q[c - Taken(job, s)] == c;
    }
  }

  /** After `i` results exactly min(workers, files left) workers are busy, where 0 workers means 4, and the
      queue holds the files after the first workers + i, in order. */
  lemma WorkersBusy(job: Job, maxNumWorkers: nat, states: seq<State>, messages: seq<Message>, i: nat)
    requires JobOk(job) && Run(job, maxNumWorkers, states, messages) && i <= |messages|
    ensures i <= |job.files|
    ensures var workers, left := if maxNumWorkers > 0 then maxNumWorkers else 4, |job.files| - i;
      && |states[i].flying| == (if workers < left then workers else left)
      && |states[i].q| == (if workers < left then left - workers else 0)
      && forall j :: 0 <= j < |states[i].q| ==> states[i].q[j] == workers + i + j
  {
    RunInv(job, maxNumWorkers, states, messages, i);
  }

  /** The callback is called at the moment the last result arrives, once, and never for an empty summary;
      every buffer then equals its source. A run cannot go on after that, and can go on before. */
  lemma FiresOnce(job: Job, maxNumWorkers: nat, states: seq<State>, messages: seq<Message>)
    requires JobOk(job) && Run(job, maxNumWorkers, states, messages)
    ensures |messages| <= |job.files|
    ensures forall i :: 0 <= i <= |messages| ==> states[i].fired == if i == |job.files| && i > 0 then 1 else 0
    ensures |messages| == |job.files| ==>
      states[|messages|].buffers == job.sources && states[|messages|].flying == map[]
    ensures |messages| < |job.files| ==> states[|messages|].flying != map[]
  {
    forall i | 0 <= i <= |messages| ensures states[i].fired == if i == |job.files| && i > 0 then 1 else 0 {
      RunInv(job, maxNumWorkers, states, messages, i);
    }
    RunInv(job, maxNumWorkers, states, messages, |messages|);
    var s := states[|messages|];
    if |messages| == |job.files| {
      AllRebuilt(job, NumLaunch(job, maxNumWorkers), s);
    } else {
      assert s.q != [] ==> NumLaunch(job, maxNumWorkers) > 0;
      assert |s.flying| > 0;
    }
  }

  lemma AllRebuilt(job: Job, launched: nat, s: State)
    requires JobOk(job) && Inv(job, launched, s) && s.ready == |job.files|
    ensures s.buffers == job.sources
  {
    forall b, x | 0 <= b < |s.buffers| && 0 <= x < |s.buffers[b]| ensures s.buffers[b][x] == job.sources[b][x] {
      assert AllAccounted(job, b);
      assert Accounted(job, b, x) && Rebuilt(job, s, b, x);
      var c :| Accounts(job, c, b, x);
      assert c in s.written || InFlight(s, c);
    }
    assert forall b :: 0 <= b < |s.buffers| ==> s.buffers[b] == job.sources[b];
  }

  // ---- the page and its workers ----

  /** A worker's answer to the file it was given. */
  method Work(ghost job: Job, worker: nat, c: nat, file: File) returns (m: Message)
    requires FileOk(job, c) && file == job.files[c]
    ensures m.worker == worker && Expanded(job, c, m)
  {
    var start, end, dense := Expand(file.chunk, job.sources[file.buffer], job.ranges[c].lo, job.ranges[c].hi);
    m := Message(worker, file.buffer, start, end, dense[..]);
  }

  class Page {
    var q: seq<nat>
    var flying: map<nat, nat>
    var buffers: seq<array<int>>
    var ready: nat
    var fired: nat
    ghost var written: set<nat>
    const summary: nat

    ghost predicate Valid()
      reads this
    {
      forall i, j :: 0 <= i < j < |buffers| ==> buffers[i] != buffers[j]
    }

    ghost function Snap(): State
      reads this, buffers
    {
      State(q, flying, written, seq(|buffers|, b requires 0 <= b < |buffers| reads this, buffers => buffers[b][..]),
        ready, fired)
    }

    constructor (ghost job: Job, lens: seq<nat>, files: nat)
      requires files == |job.files| && |lens| == |job.sources|
      requires forall b :: 0 <= b < |lens| ==> lens[b] == |job.sources[b]|
      ensures Valid() && fresh(buffers) && summary == |job.files|
      ensures Snap() == Loaded(job)
    {
      summary, ready, fired, written, flying := files, 0, 0, {}, map[];
      q := seq(files, i => i);
      var bs := [];
      for b := 0 to |lens|
        invariant |bs| == b && fresh(bs)
        invariant forall i, j :: 0 <= i < j < |bs| ==> bs[i] != bs[j]
        invariant forall i :: 0 <= i < |bs| ==> bs[i][..] == seq(|job.sources[i]|, _ => 0)
      {
        var buffer := AllocArray(lens[b], false);
        bs := bs + [buffer];
      }
      buffers := bs;
    }

    /** Launches the workers, each of which takes a file. */
    method Launch(ghost job: Job, maxNumWorkers: nat)
      requires Valid() && Snap() == Loaded(job)
      modifies this
      ensures Valid() && buffers == old(buffers) && Snap() == Launched(job, maxNumWorkers)
    {
      ghost var blank := Snap().buffers;
      var max := NumWorkers(maxNumWorkers);
      var numLaunch := if max < |q| then max else |q|;
      for p := 0 to numLaunch
        invariant buffers == old(buffers) && ready == fired == 0 && written == {}
        invariant q == old(q)[p..] && flying == Busy(p)
      {
        flying, q := flying[p := q[0]], q[1..];
      }
      assert Snap().buffers == blank;
    }

    /** Receives what a worker has posted. */
    method OnMessage(ghost job: Job, m: Message)
      requires Valid() && summary == |job.files| && Sized(job, Snap()) && Arrives(job, Snap(), m)
      modifies this, buffers
      ensures Valid() && buffers == old(buffers)
      ensures Snap() == old(Received(job, Snap(), m))
    {
      ghost var before := Snap();
      Copy(m.buffer, m.start, m.dense);
      written := written + {flying[m.worker]};
      ready := ready + 1;
      if ready == summary { fired := fired + 1; }
      if |q| > 0 {
        flying, q := flying[m.worker := q[0]], q[1..];
      } else {
        flying := flying - {m.worker};
      }
      assert Snap().buffers == before.buffers[m.buffer := Put(before.buffers[m.buffer], m.start, m.dense)];
    }

    method Copy(buffer: nat, start: nat, dense: seq<int>)
      requires Valid() && buffer < |buffers| && start + |dense| <= buffers[buffer].Length
      modifies buffers
      ensures Snap() == old(Snap().(buffers := Snap().buffers[buffer := Put(Snap().buffers[buffer], start, dense)]))
    {
      ghost var before := Snap().buffers;
      WriteBlock(buffers[buffer], start, dense);
      assert buffers[buffer][..] == Put(before[buffer], start, dense);
      assert Snap().buffers == before[buffer := Put(before[buffer], start, dense)];
    }
  }
}
