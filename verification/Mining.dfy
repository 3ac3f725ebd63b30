/** Parallel mining (src/mining.rs): the worker threads and the receiver of mine_template_parallel as
    interleaved atomic steps. */
module Mining {
  import opened Arithmetic
  import opened Types
  import opened ChainRules
  import Compact

  /** The template's block and header, and the number of workers. */
  datatype Job = Job(h: Host, block: Block, header: BlockHeader, count: nat)

  /** Where a worker stands: before its checks, about to hash, with a nonce that meets the target before it
      has said so, before it has sent it, and returned. */
  datatype Phase = Checking | Hashing | Winning | Sending | Returned

  datatype Worker = Worker(nonce: u64, tries: nat, phase: Phase)

  datatype Outcome = Mined(block: Block) | Stopped

  datatype Receiver = Looking | Receiving | Finished(outcome: Outcome)

  /** `stop` stands for the two flags that the caller may change; `tried` lists the nonces hashed so far. */
  datatype State = State(
    workers: seq<Worker>,
    found: bool,
    channel: seq<Block>,
    receiver: Receiver,
    stop: bool,
    totalHashes: u64,
    tried: seq<u64>)

  function WithNonce(j: Job, nonce: u64): Block {
    j.block.(header := j.header.(nonce := nonce))
  }

  predicate Solves(j: Job, nonce: u64) {
    MeetsTarget(j.h, j.header.(nonce := nonce))
  }

  // ---------- Steps ----------

  datatype Event = Check(w: nat) | Hash(w: nat) | Mark(w: nat) | Send(w: nat) | Look | Receive | Halt

  function Put(s: State, w: nat, worker: Worker): State
    requires w < |s.workers|
  {
    s.(workers := s.workers[w := worker])
  }

  predicate AllReturned(s: State) {
    forall w :: 0 <= w < |s.workers| ==> s.workers[w].phase == Returned
  }

  /** The state after an event, if the event can happen. */
  function Next(j: Job, s: State, e: Event): Option<State> {
    match e
    case Check(w) =>
      if w < |s.workers| && s.workers[w].phase == Checking then
        Some(Put(s, w, s.workers[w].(phase := if s.stop || s.found then Returned else Hashing)))
      else None
    case Hash(w) =>
      if w < |s.workers| && s.workers[w].phase == Hashing then
        var worker := s.workers[w];
        var hashed := s.(totalHashes := (s.totalHashes + 1) % U64_LIMIT, tried := s.tried + [worker.nonce]);
        if Solves(j, worker.nonce) then
          Some(Put(hashed, w, worker.(phase := Winning, tries := worker.tries + 1)))
        else
          Some(Put(hashed, w, Worker((worker.nonce + j.count) % U64_LIMIT, worker.tries + 1, Checking)))
      else None
    case Mark(w) =>
      if w < |s.workers| && s.workers[w].phase == Winning then
        Some(Put(s.(found := true), w, s.workers[w].(phase := Sending)))
      else None
    case Send(w) =>
      if w < |s.workers| && s.workers[w].phase == Sending then
        Some(Put(s.(channel := s.channel + [WithNonce(j, s.workers[w].nonce)]), w, s.workers[w].(phase := Returned)))
      else None
    case Look =>
      if s.receiver == Looking then
        Some(s.(receiver := if s.stop then Finished(Stopped) else Receiving, found := s.found || s.stop))
      else None
    case Receive =>
      if s.receiver != Receiving then None
      else if s.channel != [] then
        Some(s.(receiver := Finished(Mined(s.channel[0])), channel := s.channel[1..], found := true))
      else if AllReturned(s) then Some(s.(receiver := Finished(Stopped), found := true))
      else Some(s.(receiver := Looking))
    case Halt => Some(s.(stop := true))
  }

  function Start(j: Job, totalHashes: u64): State {
    State(seq(j.count, w => Worker(w % U64_LIMIT, 0, Checking)), false, [], Looking, false, totalHashes, [])
  }

  /** A run: each state follows from the one before by some event. */
  ghost predicate Run(j: Job, states: seq<State>) {
    && states != []
    && (exists n: u64 :: states[0] == Start(j, n))
    && (forall i :: 0 <= i < |states| - 1 ==> Follows(j, states[i], states[i + 1]))
  }

  ghost predicate Follows(j: Job, s: State, t: State) {
    exists e :: Next(j, s, e) == Some(t)
  }

  // ---------- What is mined ----------

  /** Whatever is on its way to the receiver, or has reached it, is the template with a nonce that meets
      the target. */
  ghost predicate OnlySolutions(j: Job, s: State) {
    && (forall w :: 0 <= w < |s.workers| && (s.workers[w].phase == Winning || s.workers[w].phase == Sending) ==>
          Solves(j, s.workers[w].nonce))
    && (forall b :: b in s.channel ==> IsSolution(j, b))
    && (s.receiver.Finished? && s.receiver.outcome.Mined? ==> IsSolution(j, s.receiver.outcome.block))
  }

  ghost predicate IsSolution(j: Job, b: Block) {
    exists nonce: u64 :: b == WithNonce(j, nonce) && Solves(j, nonce)
  }

  lemma SolutionsStep(j: Job, s: State, e: Event)
    requires OnlySolutions(j, s) && Next(j, s, e).Some?
    ensures OnlySolutions(j, Next(j, s, e).value)
  {
    hide MeetsTarget;
    var t := Next(j, s, e).value;
    if e.Send? {
      assert IsSolution(j, WithNonce(j, s.workers[e.w].nonce));
    }
    if e.Receive? && s.channel != [] {
      assert s.channel[0] in s.channel;
    }
  }

  // ---------- Nobody gives up ----------

  /** While the caller has not stopped the search: if the mark has been set, a solution is about to be sent,
      in the channel, or received; no worker has returned before that; and the receiver has not given up. */
  ghost predicate NobodyGivesUp(s: State) {
    !s.stop ==>
      && (s.found ==> s.receiver.Finished? || s.channel != [] || exists w :: 0 <= w < |s.workers| && IsSending(s, w))
      && (forall w :: 0 <= w < |s.workers| && (s.workers[w].phase == Returned || IsSending(s, w)) ==> s.found)
      && s.receiver != Finished(Stopped)
  }

  predicate IsSending(s: State, w: nat)
    requires w < |s.workers|
  {
    s.workers[w].phase == Sending
  }

  lemma NobodyGivesUpStep(j: Job, s: State, e: Event)
    requires NobodyGivesUp(s) && s.workers != [] && Next(j, s, e).Some?
    ensures NobodyGivesUp(Next(j, s, e).value)
  {
    hide MeetsTarget;
    var t := Next(j, s, e).value;
    if !t.stop {
      match e
      case Mark(w) =>
        assert IsSending(t, w);
      case Check(v) => KeepsSending(s, t, v);
      case Hash(v) => KeepsSending(s, t, v);
      case Send(v) =>
      case Look => SameSending(s, t);
      case Receive =>
        SameSending(s, t);
        if s.channel == [] {
          SomeoneStillRuns(s);
        }
      case Halt =>
    }
  }

  /** A step of a worker that is not sending leaves the sending ones alone. */
  lemma KeepsSending(s: State, t: State, v: nat)
    requires v < |s.workers| && |t.workers| == |s.workers| && s.workers[v].phase != Sending
    requires forall w :: 0 <= w < |s.workers| && w != v ==> t.workers[w] == s.workers[w]
    ensures (exists w :: 0 <= w < |s.workers| && IsSending(s, w)) ==>
      exists w :: 0 <= w < |t.workers| && IsSending(t, w)
  {
    if w :| 0 <= w < |s.workers| && IsSending(s, w) {
      assert IsSending(t, w);
    }
  }

  lemma SameSending(s: State, t: State)
    requires t.workers == s.workers
    ensures (exists w :: 0 <= w < |s.workers| && IsSending(s, w)) ==>
      exists w :: 0 <= w < |t.workers| && IsSending(t, w)
  {
    if w :| 0 <= w < |s.workers| && IsSending(s, w) {
      assert IsSending(t, w);
    }
  }

  /** The channel is not abandoned before something was sent. */
  lemma SomeoneStillRuns(s: State)
    requires NobodyGivesUp(s) && s.workers != [] && !s.stop && !s.receiver.Finished? && s.channel == []
    ensures !AllReturned(s)
  {
    if s.found {
      var w :| 0 <= w < |s.workers| && IsSending(s, w);
      assert s.workers[w].phase != Returned;
    } else {
      assert s.workers[0].phase != Returned;
    }
  }

  // ---------- Nothing is passed over ----------

  /** The nonce is in safe hands: a worker holds it, its block is in the channel, or the receiver has it. */
  ghost predicate Held(j: Job, s: State, nonce: u64) {
    || (exists w :: 0 <= w < |s.workers| && Holds(s, w, nonce))
    || WithNonce(j, nonce) in s.channel
    || s.receiver == Finished(Mined(WithNonce(j, nonce)))
  }

  predicate Holds(s: State, w: nat, nonce: u64)
    requires w < |s.workers|
  {
    (s.workers[w].phase == Winning || s.workers[w].phase == Sending) && s.workers[w].nonce == nonce
  }

  /** Every nonce that was tried and meets the target is held. */
  ghost predicate NothingPassedOver(j: Job, s: State) {
    forall nonce: u64 :: nonce in s.tried && Solves(j, nonce) ==> Held(j, s, nonce)
  }

  lemma HeldStays(j: Job, s: State, e: Event, nonce: u64)
    requires Next(j, s, e).Some? && Held(j, s, nonce)
    ensures Held(j, Next(j, s, e).value, nonce)
  {
    hide MeetsTarget, AllReturned;
    var t := Next(j, s, e).value;
    if w :| 0 <= w < |s.workers| && Holds(s, w, nonce) {
      if !(e == Send(w)) {
        assert Holds(t, w, nonce);
      }
    } else if e.Receive? && s.receiver == Receiving && s.channel != [] {
      assert s.channel == [s.channel[0]] + s.channel[1..];
    }
  }

  lemma PassedOverStep(j: Job, s: State, e: Event)
    requires NothingPassedOver(j, s) && Next(j, s, e).Some?
    ensures NothingPassedOver(j, Next(j, s, e).value)
  {
    hide MeetsTarget, Solves, Held;
    var t := Next(j, s, e).value;
    forall nonce: u64 | nonce in t.tried && Solves(j, nonce)
      ensures Held(j, t, nonce)
    {
      if nonce in s.tried {
        HeldStays(j, s, e, nonce);
      } else {
        Tried(j, s, e, nonce);
      }
    }
  }

  lemma Tried(j: Job, s: State, e: Event, nonce: u64)
    requires Next(j, s, e).Some? && nonce in Next(j, s, e).value.tried && nonce !in s.tried && Solves(j, nonce)
    ensures Held(j, Next(j, s, e).value, nonce)
  {
    hide Solves;
    assert e.Hash? && s.workers[e.w].nonce == nonce;
    assert Holds(Next(j, s, e).value, e.w, nonce);
  }

  // ---------- Every step can be taken, and what it does ----------

  /** Whoever has not returned can always go on: a worker looks at the marks before each hash, and returns exactly if
      the search is over or stopped; it hashes the header with its nonce, which adds one to the count, and takes a
      nonce that meets the target, or else goes on to the next of its own; what it has taken it marks and sends. */
  lemma WorkerGoesOn(j: Job, s: State, w: nat)
    requires w < |s.workers| && s.workers[w].phase != Returned
    ensures var worker := s.workers[w];
      var e := match worker.phase
        case Checking => Check(w)
        case Hashing => Hash(w)
        case Winning => Mark(w)
        case _ => Send(w);
      && Next(j, s, e).Some?
      && var t := Next(j, s, e).value; var after := t.workers[w];
         && t.workers == s.workers[w := after] && t.receiver == s.receiver && t.stop == s.stop
         && match worker.phase
            case Checking =>
              && after.phase == (if s.stop || s.found then Returned else Hashing)
              && after.nonce == worker.nonce && t.tried == s.tried && t.totalHashes == s.totalHashes
            case Hashing =>
              && t.tried == s.tried + [worker.nonce] && t.totalHashes == (s.totalHashes + 1) % U64_LIMIT
              && (MeetsTarget(j.h, j.header.(nonce := worker.nonce)) ==>
                    after.phase == Winning && after.nonce == worker.nonce)
              && (!MeetsTarget(j.h, j.header.(nonce := worker.nonce)) ==>
                    after.phase == Checking && after.nonce == (worker.nonce + j.count) % U64_LIMIT)
            case Winning => t.found && after.phase == Sending && after.nonce == worker.nonce
            case _ =>
              && after.phase == Returned
              && t.channel == s.channel + [j.block.(header := j.header.(nonce := worker.nonce))]
  {
    hide MeetsTarget, AllReturned;
  }

  /** The receiver, too: it gives up if it is told to, or if every worker has returned without sending; it returns the
      first block that was sent; and in the end it sets the mark. */
  lemma ReceiverGoesOn(j: Job, s: State)
    requires !s.receiver.Finished?
    ensures s.receiver == Looking ==>
      Next(j, s, Look)
        == Some(s.(receiver := if s.stop then Finished(Stopped) else Receiving, found := s.found || s.stop))
    ensures s.receiver == Receiving && s.channel != [] ==>
      Next(j, s, Receive)
        == Some(s.(receiver := Finished(Mined(s.channel[0])), channel := s.channel[1..], found := true))
    ensures s.receiver == Receiving && s.channel == [] ==>
      Next(j, s, Receive) ==
        if forall w :: 0 <= w < |s.workers| ==> s.workers[w].phase == Returned
        then Some(s.(receiver := Finished(Stopped), found := true))
        else Some(s.(receiver := Looking))
  {
  }

  // ---------- Which nonces are tried ----------

  /** The nonce that a worker comes to after its tries, if nothing wraps around. */
  function Frontier(j: Job, s: State, w: nat): nat
    requires w < |s.workers|
  {
    w + s.workers[w].tries * j.count
  }

  ghost predicate NoWrap(j: Job, s: State) {
    forall w :: 0 <= w < |s.workers| ==> Frontier(j, s, w) < U64_LIMIT
  }

  /** The nonces that have been tried are exactly those below the frontier of the worker whose residue class
      they are in, and each has been tried once. */
  ghost predicate TriedOnce(j: Job, s: State) {
    && |s.workers| == j.count > 0
    && (forall w :: 0 <= w < j.count && (s.workers[w].phase == Checking || s.workers[w].phase == Hashing) ==>
          s.workers[w].nonce == Frontier(j, s, w))
    && (forall n: nat :: n in s.tried <==> n < Frontier(j, s, n % j.count))
    && (forall a, b :: 0 <= a < b < |s.tried| ==> s.tried[a] != s.tried[b])
  }

  /** Between a number and its successor in the residue class there is no third. */
  lemma NextInClass(count: nat, w: nat, tries: nat, n: nat)
    requires w < count
    ensures var at := w + tries * count;
      && at % count == w && w + (tries + 1) * count == at + count
      && (n % count == w ==> (n < at + count <==> n < at || n == at))
  {
    Quotient(count, tries, w);
    MulAdd(tries, 1, count);
    if n % count == w {
      var q := n / count;
      Division(n, count);
      if q <= tries {
        MulMonotone(q, tries, count);
      }
      if q >= tries + 1 {
        MulMonotone(tries + 1, q, count);
      }
      if q < tries {
        MulMonotone(q + 1, tries, count);
        MulAdd(q, 1, count);
      }
    }
  }

  lemma TriedOnceStep(j: Job, s: State, e: Event)
    requires TriedOnce(j, s) && Next(j, s, e).Some? && NoWrap(j, Next(j, s, e).value)
    ensures TriedOnce(j, Next(j, s, e).value)
  {
    hide MeetsTarget, Solves, TriedOnce, Frontier, NoWrap, AllReturned;
    assert |s.workers| == j.count > 0 by {
      HasWorkers(j, s);
    }
    var t := Next(j, s, e).value;
    if e.Hash? {
      HashTried(j, s, e.w, t);
    } else {
      NothingTried(j, s, t);
    }
  }

  lemma HasWorkers(j: Job, s: State)
    requires TriedOnce(j, s)
    ensures |s.workers| == j.count > 0
  {
  }

  /** A step that tries no nonce and moves no worker's. */
  lemma NothingTried(j: Job, s: State, t: State)
    requires TriedOnce(j, s) && t.tried == s.tried && |t.workers| == |s.workers|
    requires forall w :: 0 <= w < |s.workers| ==>
      && t.workers[w].tries == s.workers[w].tries && t.workers[w].nonce == s.workers[w].nonce
      && (t.workers[w].phase == Checking || t.workers[w].phase == Hashing ==>
            s.workers[w].phase == Checking || s.workers[w].phase == Hashing)
    ensures TriedOnce(j, t)
  {
    Division(0, j.count);
    forall w | 0 <= w < j.count
      ensures Frontier(j, t, w) == Frontier(j, s, w)
    {
    }
    forall n: nat
      ensures n in t.tried <==> n < Frontier(j, t, n % j.count)
    {
      Division(n, j.count);
    }
  }

  lemma HashTried(j: Job, s: State, w: nat, t: State)
    requires TriedOnce(j, s) && w < |s.workers| && s.workers[w].phase == Hashing
    requires t.tried == s.tried + [s.workers[w].nonce] && NoWrap(j, t)
    requires |t.workers| == |s.workers| && t.workers[w].tries == s.workers[w].tries + 1
    requires t.workers[w].phase == Winning ||
      (t.workers[w].phase == Checking && t.workers[w].nonce == (s.workers[w].nonce + j.count) % U64_LIMIT)
    requires forall v :: 0 <= v < |s.workers| && v != w ==> t.workers[v] == s.workers[v]
    ensures TriedOnce(j, t)
  {
    var at := Frontier(j, s, w);
    NextInClass(j.count, w, s.workers[w].tries, 0);
    assert Frontier(j, t, w) == at + j.count;
    forall n: nat
      ensures n in t.tried <==> n < Frontier(j, t, n % j.count)
    {
      NextInClass(j.count, w, s.workers[w].tries, n);
    }
    forall v | 0 <= v < j.count && (t.workers[v].phase == Checking || t.workers[v].phase == Hashing)
      ensures t.workers[v].nonce == Frontier(j, t, v)
    {
      if v != w {
        assert Frontier(j, t, v) == Frontier(j, s, v);
      }
    }
  }

  // ---------- Runs ----------

  lemma StartSound(j: Job, n: u64)
    requires 0 < j.count < U64_LIMIT
    ensures var s := Start(j, n);
      OnlySolutions(j, s) && NobodyGivesUp(s) && NothingPassedOver(j, s) && Counted(s, n) && TriedOnce(j, s)
  {
    var s := Start(j, n);
    forall k: nat
      ensures k in s.tried <==> k < Frontier(j, s, k % j.count)
    {
      Division(k, j.count);
      MulPositive(k / j.count, j.count);
    }
  }

  /** The count of hashes is what it was at the start, plus one for every nonce tried. */
  predicate Counted(s: State, start: u64) {
    s.totalHashes == (start + |s.tried|) % U64_LIMIT
  }

  lemma CountedStep(j: Job, s: State, e: Event, start: u64)
    requires Counted(s, start) && Next(j, s, e).Some?
    ensures Counted(Next(j, s, e).value, start)
  {
    hide MeetsTarget, AllReturned;
  }

  /** In every run with at least one worker: a block that the receiver returns is the template with a nonce that meets
      its target; every nonce tried that meets the target is held by a worker about to send it, in the channel, or
      with the receiver; unless the caller stops the search, the receiver never gives up; the hashes are counted; and
      until some worker has wrapped around, the nonces tried are exactly those below the frontiers, each once. */
  lemma {:induction false} MiningRun(j: Job, states: seq<State>, i: nat)
    requires Run(j, states) && 0 < j.count < U64_LIMIT && i < |states|
    ensures var s := states[i];
      && OnlySolutions(j, s) && NobodyGivesUp(s) && NothingPassedOver(j, s)
      && Counted(s, states[0].totalHashes)
      && |s.workers| == j.count
      && (NoWrap(j, s) ==> TriedOnce(j, s))
  {
    if i == 0 {
      var n: u64 :| states[0] == Start(j, n);
      StartSound(j, n);
    } else {
      hide MeetsTarget, Solves, OnlySolutions, NobodyGivesUp, NothingPassedOver, TriedOnce, Counted, Start, Next,
        NoWrap;
      MiningRun(j, states, i - 1);
      var s, t := states[i - 1], states[i];
      assert Follows(j, s, t);
      var e :| Next(j, s, e) == Some(t);
      WorkersKept(j, s, e);
      SolutionsStep(j, s, e);
      NobodyGivesUpStep(j, s, e);
      PassedOverStep(j, s, e);
      CountedStep(j, s, e, states[0].totalHashes);
      if NoWrap(j, t) {
        WrapIsForever(j, s, e);
        TriedOnceStep(j, s, e);
      }
    }
  }

  /** So as long as nothing is found, stopped or wrapped, no nonce below the frontiers meets the target, unless the
      worker who tried it is about to say so. */
  lemma NotFoundYet(j: Job, states: seq<State>, i: nat, nonce: u64)
    requires Run(j, states) && 0 < j.count < U64_LIMIT && i < |states|
    requires var s := states[i]; !s.found && !s.stop && NoWrap(j, s)
    requires var w := nonce % j.count;
      && w < |states[i].workers| && nonce < w + states[i].workers[w].tries * j.count
      && Solves(j, nonce)
    ensures exists w ::
      0 <= w < |states[i].workers| && states[i].workers[w].phase == Winning && states[i].workers[w].nonce == nonce
  {
    MiningRun(j, states, i);
    hide MeetsTarget, Solves, WithNonce;
    var s := states[i];
    assert nonce in s.tried;
    assert Held(j, s, nonce);
    NothingFound(j, states, i);
    var w :| 0 <= w < |s.workers| && Holds(s, w, nonce);
    assert !IsSending(s, w);
  }

  /** The mark is set before anything is sent, and whenever the receiver is done. */
  ghost predicate MarkFirst(s: State) {
    s.channel != [] || s.receiver.Finished? ==> s.found
  }

  lemma {:induction false} NothingFound(j: Job, states: seq<State>, i: nat)
    requires Run(j, states) && 0 < j.count < U64_LIMIT && i < |states|
    ensures MarkFirst(states[i])
    ensures forall w :: 0 <= w < |states[i].workers| && IsSending(states[i], w) ==> states[i].found
  {
    if i == 0 {
      var n: u64 :| states[0] == Start(j, n);
    } else {
      hide MeetsTarget, Solves, WithNonce, Start, AllReturned;
      NothingFound(j, states, i - 1);
      var s, t := states[i - 1], states[i];
      assert Follows(j, s, t);
      var e :| Next(j, s, e) == Some(t);
      if e.Send? {
        assert IsSending(s, e.w);
      }
      forall w | 0 <= w < |t.workers| && IsSending(t, w)
        ensures t.found
      {
        if !e.Mark? {
          assert IsSending(s, w);
        }
      }
    }
  }

  lemma WorkersKept(j: Job, s: State, e: Event)
    requires Next(j, s, e).Some?
    ensures |Next(j, s, e).value.workers| == |s.workers|
  {
    hide MeetsTarget;
  }

  lemma WrapIsForever(j: Job, s: State, e: Event)
    requires Next(j, s, e).Some? && NoWrap(j, Next(j, s, e).value)
    ensures NoWrap(j, s)
  {
    hide MeetsTarget, Solves;
    var t := Next(j, s, e).value;
    forall w | 0 <= w < |s.workers|
      ensures Frontier(j, s, w) <= Frontier(j, t, w)
    {
      MulMonotone(s.workers[w].tries, t.workers[w].tries, j.count);
    }
  }

  /** What the caller is told: an outcome reached without stopping is a block with the transactions and the header of
      the template, but for the nonce, and a hash that, read as a number, is at most the target. */
  lemma MinedIsSolution(j: Job, states: seq<State>, i: nat)
    requires Run(j, states) && 0 < j.count < U64_LIMIT && i < |states|
    requires states[i].receiver.Finished? && !states[i].stop
    ensures states[i].receiver.outcome.Mined? && IsSolution(j, states[i].receiver.outcome.block)
    ensures var block := states[i].receiver.outcome.block;
      && block.transactions == j.block.transactions
      && block.header == j.header.(nonce := block.header.nonce)
      && Compact.HashValue(j.h.block(block.header)) <= Compact.TargetFromBits(j.header.bits)
  {
    MiningRun(j, states, i);
  }
}
