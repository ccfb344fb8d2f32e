/**
 * The prebuffered, paced packet pipeline of internal/server/xiaozhi_device.go: a producer goroutine feeding a 64-slot
 * channel (streamSpeechOpus) and a consumer writing to the device on a clock (playBufferedOpus), under every schedule.
 */
module PacketPipeline {
  import opened Wrappers

  const CHANNEL_SLOTS: nat := 64
  const PREBUFFER: nat := 4

  type Packet = seq<int>

  datatype Outcome = Success | NoPackets | ProducerFailed | ContextDone | WriteFailed

  // ----- Playback: the closure writePacket and its variables -----

  datatype Sent = Sent(packet: Packet, at: int)

  /** `callbacks` counts the calls of onFirstPacket. */
  datatype Playback = Playback(nextAt: int, first: bool, callbacks: nat, written: seq<Sent>)

  function StartPlayback(now: int): Playback {
    Playback(now, true, 0, [])
  }

  function AfterCallback(p: Playback): Playback {
    p.(first := false, callbacks := if p.first then p.callbacks + 1 else p.callbacks)
  }

  function AfterWrite(p: Playback, packet: Packet, now: int, frame: int): Playback {
    AfterCallback(p).(written := p.written + [Sent(packet, now)], nextAt := p.nextAt + frame)
  }

  class Player {
    const frame: int
    var nextPacketAt: int
    var first: bool
    var callbacks: nat
    var written: seq<Sent>

    ghost function State(): Playback
      reads this
    {
      Playback(nextPacketAt, first, callbacks, written)
    }

    constructor (frameMS: int, now: int)
      ensures State() == StartPlayback(now) && frame == frameMS
    {
      frame := frameMS;
      nextPacketAt, first, callbacks, written := now, true, 0, [];
    }

    /**
     * `now` is the clock on entry; a timer may fire `late`, but never before its time. `canceled` says that the context
     * ends a wait, `at` is when the packet was handed over.
     */
    method WritePacket(packet: Packet, now: int, late: nat, canceled: bool, writeFails: bool)
      returns (failure: Option<Outcome>, ghost at: int)
      modifies this
      ensures at == (if now < old(nextPacketAt) then old(nextPacketAt) + late else now)
      ensures canceled && now < old(nextPacketAt) ==> failure == Some(ContextDone) && State() == old(State())
      ensures !(canceled && now < old(nextPacketAt)) ==>
                if writeFails then failure == Some(WriteFailed) && State() == AfterCallback(old(State()))
                else failure == None && State() == AfterWrite(old(State()), packet, at, frame)
    {
      var clock := now;
      at := if now < nextPacketAt then nextPacketAt + late else now;
      if nextPacketAt - now > 0 {
        if canceled {
          return Some(ContextDone), at;
        }
        clock := nextPacketAt + late;
      }
      if first {
        first := false;
        callbacks := callbacks + 1;
      }
      if writeFails {
        return Some(WriteFailed), at;
      }
      written := written + [Sent(packet, clock)];
      nextPacketAt := nextPacketAt + frame;
      failure := None;
    }
  }

  // ----- The protocol -----

  /** Where the consumer stands; `streaming` says that the channel is still to be ranged over after the prebuffer. */
  datatype Consumer =
    | Filling
    | Replaying(index: nat, streaming: bool)
    | Ranging
    | Holding(packet: Packet)
    | Awaiting
    | Finished(outcome: Outcome)

  /**
   * `produced` lists the packets the producer's callback accepted; `result` is the one-slot result channel; `waiting`
   * says that the consumer found the next packet early and has set its timer.
   */
  datatype World = World(now: int, canceled: bool, produced: seq<Packet>, channel: seq<Packet>, closed: bool,
                         result: Option<bool>, consumer: Consumer, buffered: seq<Packet>, start: int, play: Playback,
                         waiting: bool)

  ghost predicate Init(w: World) {
    && w.produced == [] && w.channel == [] && !w.closed && w.result == None
    && w.consumer == Filling && w.buffered == [] && w.play == StartPlayback(w.start) && !w.waiting
  }

  // The environment and the producer.

  ghost predicate Tick(w: World, w': World) {
    w.now <= w'.now && w' == w.(now := w'.now)
  }

  ghost predicate Cancel(w: World, w': World) {
    w' == w.(canceled := true)
  }

  ghost predicate Produce(w: World, w': World) {
    && !w.closed && |w.channel| < CHANNEL_SLOTS
    && exists p :: w' == w.(channel := w.channel + [p], produced := w.produced + [p])
  }

  ghost predicate CloseChannel(w: World, w': World) {
    !w.closed && w' == w.(closed := true)
  }

  /** The producer's error, or its absence, goes out after the channel has been closed. */
  ghost predicate SendResult(w: World, w': World) {
    && w.closed && w.result == None
    && exists failed :: w' == w.(result := Some(failed))
  }

  // The consumer.

  ghost predicate Fill(w: World, w': World) {
    && w.consumer == Filling && |w.buffered| < PREBUFFER && w.channel != []
    && w' == w.(channel := w.channel[1..], buffered := w.buffered + [w.channel[0]])
  }

  ghost predicate FillCanceled(w: World, w': World) {
    w.consumer == Filling && |w.buffered| < PREBUFFER && w.canceled && w' == w.(consumer := Finished(ContextDone))
  }

  /** The prebuffer is full, or the stream was shorter than it; the playback clock starts. */
  ghost predicate StartReplay(w: World, w': World) {
    && w.consumer == Filling && (|w.buffered| == PREBUFFER || (w.channel == [] && w.closed))
    && w' == w.(consumer := Replaying(0, |w.buffered| == PREBUFFER), start := w.now, play := StartPlayback(w.now))
  }

  /** The packet that is to be written next, if there is one. */
  ghost function Pending(w: World): Option<Packet> {
    match w.consumer
    case Replaying(i, _) => if i < |w.buffered| then Some(w.buffered[i]) else None
    case Holding(p) => Some(p)
    case _ => None
  }

  ghost function AfterPending(c: Consumer): Consumer {
    match c
    case Replaying(i, streaming) => Replaying(i + 1, streaming)
    case _ => Ranging
  }

  ghost predicate SetTimer(w: World, w': World) {
    Pending(w).Some? && !w.waiting && w.now < w.play.nextAt && w' == w.(waiting := true)
  }

  /** At once when the packet is due on arrival, else when the timer has fired. */
  ghost predicate Write(w: World, w': World, frame: int) {
    && Pending(w).Some? && w.play.nextAt <= w.now
    && w' == w.(play := AfterWrite(w.play, Pending(w).value, w.now, frame), consumer := AfterPending(w.consumer),
                waiting := false)
  }

  ghost predicate WriteError(w: World, w': World) {
    && Pending(w).Some? && w.play.nextAt <= w.now
    && w' == w.(play := AfterCallback(w.play), consumer := Finished(WriteFailed), waiting := false)
  }

  /** The context is only looked at together with the timer; when both are ready either may win. */
  ghost predicate WaitCanceled(w: World, w': World) {
    Pending(w).Some? && w.waiting && w.canceled && w' == w.(consumer := Finished(ContextDone), waiting := false)
  }

  ghost predicate ReplayDone(w: World, w': World) {
    && w.consumer.Replaying? && w.consumer.index == |w.buffered|
    && w' == w.(consumer := if w.consumer.streaming then Ranging else Awaiting)
  }

  ghost predicate Receive(w: World, w': World) {
    && w.consumer == Ranging && w.channel != []
    && w' == w.(channel := w.channel[1..], consumer := Holding(w.channel[0]))
  }

  ghost predicate RangeDone(w: World, w': World) {
    w.consumer == Ranging && w.channel == [] && w.closed && w' == w.(consumer := Awaiting)
  }

  ghost predicate TakeResult(w: World, w': World) {
    && w.consumer == Awaiting && w.result.Some?
    && w' == w.(consumer := Finished(
         if w.result.value then ProducerFailed else if w.buffered == [] then NoPackets else Success))
  }

  ghost predicate Next(w: World, w': World, frame: int) {
    || Tick(w, w') || Cancel(w, w') || Produce(w, w') || CloseChannel(w, w') || SendResult(w, w')
    || Consume(w, w', frame)
  }

  /** The steps of the consumer. */
  ghost predicate Consume(w: World, w': World, frame: int) {
    || Fill(w, w') || FillCanceled(w, w') || StartReplay(w, w')
    || SetTimer(w, w') || Write(w, w', frame) || WriteError(w, w') || WaitCanceled(w, w')
    || ReplayDone(w, w') || Receive(w, w') || RangeDone(w, w') || TakeResult(w, w')
  }

  // ----- What every step keeps -----

  function Packets(written: seq<Sent>): (r: seq<Packet>)
    ensures |r| == |written|
  {
    seq(|written|, i requires 0 <= i < |written| => written[i].packet)
  }

  /** When packet k is due. */
  function Due(start: int, frame: int, k: nat): int {
    start + k * frame
  }

  lemma DueSteps(start: int, frame: int, k: nat)
    ensures Due(start, frame, 0) == start && Due(start, frame, k + 1) == Due(start, frame, k) + frame
  {
  }

  /** Nothing is lost, duplicated or reordered between the producer and the device. */
  ghost predicate Conserved(w: World) {
    var out := Packets(w.play.written);
    match w.consumer
    case Filling => out == [] && w.produced == w.buffered + w.channel && |w.buffered| <= PREBUFFER
    case Replaying(i, streaming) =>
      && i <= |w.buffered| && out == w.buffered[..i] && w.produced == w.buffered + w.channel
      && (if streaming then |w.buffered| == PREBUFFER else w.channel == [] && w.closed)
    case Ranging => w.produced == out + w.channel && w.buffered != [] && out != []
    case Holding(p) => w.produced == out + [p] + w.channel && w.buffered != [] && out != []
    case Awaiting => w.produced == out && w.channel == [] && w.closed && (w.buffered == [] <==> w.produced == [])
    case Finished(outcome) =>
      && out <= w.produced
      && (outcome == Success ==> out == w.produced && out != [] && w.closed && w.result == Some(false))
      && (outcome == NoPackets ==> w.produced == [] && w.closed)
  }

  /** Pacing and the first-packet callback. */
  ghost predicate Paced(w: World, frame: int) {
    var p := w.play;
    && p.nextAt == Due(w.start, frame, |p.written|)
    && (forall k :: 0 <= k < |p.written| ==> p.written[k].at >= Due(w.start, frame, k))
    && p.callbacks == (if p.first then 0 else 1) && (p.written != [] ==> !p.first)
    && (w.consumer == Filling ==> p == StartPlayback(w.start))
  }

  ghost predicate Inv(w: World, frame: int) {
    && Conserved(w) && Paced(w, frame) && |w.channel| <= CHANNEL_SLOTS && (w.result.Some? ==> w.closed)
    && (w.waiting ==> Pending(w).Some?)
  }

  lemma ConservedIsPrefix(w: World)
    requires Conserved(w)
    ensures Packets(w.play.written) <= w.produced
  {
    var out := Packets(w.play.written);
    hide Packets;
    if w.consumer.Holding? {
      assert out + [w.consumer.packet] + w.channel == out + ([w.consumer.packet] + w.channel);
    }
    if w.consumer.Replaying? {
      assert w.buffered[..w.consumer.index] <= w.buffered <= w.produced;
    }
  }

  lemma WriteConserves(w: World, w': World, frame: int)
    requires Conserved(w) && Write(w, w', frame)
    ensures Conserved(w')
  {
    var packet := Pending(w).value;
    assert Packets(w'.play.written) == Packets(w.play.written) + [packet];
    if w.consumer.Replaying? {
      var i := w.consumer.index;
      assert w.buffered[..i + 1] == w.buffered[..i] + [w.buffered[i]];
    }
  }

  lemma WritePaces(w: World, w': World, frame: int)
    requires Paced(w, frame) && Write(w, w', frame)
    ensures Paced(w', frame)
  {
    DueSteps(w.start, frame, |w.play.written|);
    hide Due;
  }

  lemma StepConserves(w: World, w': World, frame: int)
    requires Inv(w, frame) && Next(w, w', frame)
    ensures Conserved(w')
  {
    if Write(w, w', frame) {
      WriteConserves(w, w', frame);
    } else if Produce(w, w') {
      ProduceConserves(w, w');
    } else if Fill(w, w') || Receive(w, w') {
      ReceiveConserves(w, w');
    } else if StartReplay(w, w') || ReplayDone(w, w') || RangeDone(w, w') {
      MoveConserves(w, w');
    } else if FillCanceled(w, w') || WriteError(w, w') || WaitCanceled(w, w') || TakeResult(w, w') {
      StopConserves(w, w');
    } else {
      QuietStepConserves(w, w');
    }
    hide Conserved, Paced;
  }

  lemma ProduceConserves(w: World, w': World)
    requires Conserved(w) && Produce(w, w')
    ensures Conserved(w')
  {
    var p :| w' == w.(channel := w.channel + [p], produced := w.produced + [p]);
    var out := Packets(w.play.written);
    hide Packets;
    assert (w.buffered + w.channel) + [p] == w.buffered + (w.channel + [p]);
    assert (out + w.channel) + [p] == out + (w.channel + [p]);
    if w.consumer.Holding? {
      assert (out + [w.consumer.packet] + w.channel) + [p] == out + [w.consumer.packet] + (w.channel + [p]);
    }
  }

  lemma QuietStepConserves(w: World, w': World)
    requires Conserved(w) && (w.result.Some? ==> w.closed)
    requires Tick(w, w') || Cancel(w, w') || CloseChannel(w, w') || SendResult(w, w') || SetTimer(w, w')
    ensures Conserved(w')
  {
    hide Packets;
  }

  lemma StopConserves(w: World, w': World)
    requires Conserved(w)
    requires FillCanceled(w, w') || WriteError(w, w') || WaitCanceled(w, w') || TakeResult(w, w')
    ensures Conserved(w')
  {
    ConservedIsPrefix(w);
    hide Packets;
  }

  lemma TakeFirst(front: seq<Packet>, channel: seq<Packet>)
    requires channel != []
    ensures front + channel == (front + [channel[0]]) + channel[1..]
  {
  }

  lemma ReceiveConserves(w: World, w': World)
    requires Conserved(w) && (Fill(w, w') || Receive(w, w'))
    ensures Conserved(w')
  {
    TakeFirst(w.buffered, w.channel);
    TakeFirst(Packets(w.play.written), w.channel);
    hide Packets;
  }

  lemma MoveConserves(w: World, w': World)
    requires Conserved(w) && (StartReplay(w, w') || ReplayDone(w, w') || RangeDone(w, w'))
    ensures Conserved(w')
  {
    var out := Packets(w.play.written);
    if StartReplay(w, w') {
      assert Packets(w'.play.written) == [] == w.buffered[..0];
    }
    hide Packets;
    assert w.buffered[..|w.buffered|] == w.buffered;
    assert w.buffered + [] == w.buffered && out + [] == out;
  }

  lemma StepKeeps(w: World, w': World, frame: int)
    requires Inv(w, frame) && Next(w, w', frame)
    ensures Inv(w', frame)
  {
    hide Conserved, Paced, AfterWrite, AfterPending;
    StepConserves(w, w', frame);
    StepPaces(w, w', frame);
  }

  lemma StepPaces(w: World, w': World, frame: int)
    requires Paced(w, frame) && Next(w, w', frame)
    ensures Paced(w', frame)
  {
    hide Due, Paced;
    if Write(w, w', frame) {
      WritePaces(w, w', frame);
    } else {
      OthersPace(w, w', frame);
    }
  }

  /** A step that is not a write leaves the playback alone, restarts it or only fires the callback. */
  lemma OthersPlay(w: World, w': World, frame: int)
    requires Next(w, w', frame) && !Write(w, w', frame)
    ensures || w'.play == StartPlayback(w'.start)
            || (w'.start == w.start && (w'.consumer == Filling ==> w.consumer == Filling && w'.play == w.play)
                && (w'.play == w.play || w'.play == AfterCallback(w.play)))
  {
    hide AfterWrite, AfterPending;
  }

  lemma OthersPace(w: World, w': World, frame: int)
    requires Paced(w, frame) && Next(w, w', frame) && !Write(w, w', frame)
    ensures Paced(w', frame)
  {
    hide Due, Next, Write;
    OthersPlay(w, w', frame);
    DueSteps(w'.start, frame, 0);
  }

  // ----- Whole runs -----

  ghost predicate IsRun(run: seq<World>, frame: int) {
    && run != [] && Init(run[0])
    && forall i :: 0 <= i < |run| - 1 ==> Next(run[i], run[i + 1], frame)
  }

  lemma {:induction false} RunsKeepInv(run: seq<World>, frame: int, i: nat)
    requires IsRun(run, frame) && i < |run|
    ensures Inv(run[i], frame)
    decreases i
  {
    if i == 0 {
      DueSteps(run[0].start, frame, 0);
    } else {
      hide Inv, Next;
      RunsKeepInv(run, frame, i - 1);
      assert Next(run[i - 1], run[i - 1 + 1], frame);
      StepKeeps(run[i - 1], run[i], frame);
    }
  }

  /** At every moment the device has got an in-order prefix of what was produced; on success exactly all of it. */
  lemma DeviceGetsPrefix(run: seq<World>, frame: int, i: nat)
    requires IsRun(run, frame) && i < |run|
    ensures Packets(run[i].play.written) <= run[i].produced
    ensures run[i].consumer == Finished(Success) ==> Packets(run[i].play.written) == run[i].produced
  {
    RunsKeepInv(run, frame, i);
    ConservedIsPrefix(run[i]);
    hide IsRun, Packets;
  }

  /**
   * Packet k never leaves before its time, and the first-packet callback has fired exactly when packets were
   * attempted.
   */
  lemma PacketsArePaced(run: seq<World>, frame: int, i: nat)
    requires IsRun(run, frame) && i < |run|
    ensures forall k :: 0 <= k < |run[i].play.written| ==> run[i].play.written[k].at >= run[i].start + k * frame
    ensures run[i].play.nextAt == run[i].start + |run[i].play.written| * frame
    ensures run[i].play.callbacks <= 1
    ensures run[i].play.written != [] ==> run[i].play.callbacks == 1
  {
    RunsKeepInv(run, frame, i);
    var w := run[i];
    forall k | 0 <= k < |w.play.written| ensures w.play.written[k].at >= w.start + k * frame {
      assert Due(w.start, frame, k) == w.start + k * frame;
    }
    hide IsRun, Packets;
  }

  /**
   * Playback waits for exactly four packets or the end of the stream, and each outcome means what it says.
   */
  ghost predicate Accounted(w: World) {
    && |w.buffered| <= 4
    && (w.play.callbacks > 0 || w.play.written != [] ==> |w.produced| >= 4 || w.closed)
    && (w.consumer == Finished(ContextDone) ==> w.canceled)
    && (w.consumer == Finished(ProducerFailed) ==> w.closed && w.result == Some(true))
    && (w.consumer == Finished(NoPackets) ==> w.closed && w.result == Some(false))
  }

  lemma {:induction false} OutcomesAreTrue(run: seq<World>, frame: int, i: nat)
    requires IsRun(run, frame) && i < |run|
    ensures Accounted(run[i])
    decreases i
  {
    hide Inv, Next, Accounted;
    if i == 0 {
      NothingYet(run[0]);
    } else {
      OutcomesAreTrue(run, frame, i - 1);
      RunsKeepInv(run, frame, i - 1);
      assert Next(run[i - 1], run[i - 1 + 1], frame);
      StepAccounts(run[i - 1], run[i], frame);
    }
  }

  lemma NothingYet(w: World)
    requires Init(w)
    ensures Accounted(w)
  {
  }

  lemma StepAccounts(w: World, w': World, frame: int)
    requires Inv(w, frame) && Accounted(w) && Next(w, w', frame)
    ensures Accounted(w')
  {
    hide Paced, Conserved, Packets;
    if Pending(w).Some? {
      PendingIsPrebuffered(w, frame);
    }
  }

  /** Whoever has a packet in hand has seen four, or the end. */
  lemma PendingIsPrebuffered(w: World, frame: int)
    requires Inv(w, frame) && Pending(w).Some?
    ensures |w.produced| >= 4 || w.closed || w.play.written != []
  {
    hide Paced;
  }

  /** A stream without packets is never reported as a success, and success means the producer ended without error. */
  lemma SuccessIsComplete(run: seq<World>, frame: int, i: nat)
    requires IsRun(run, frame) && i < |run| && run[i].consumer == Finished(Success)
    ensures run[i].produced != [] && run[i].closed && run[i].result == Some(false) && run[i].play.callbacks == 1
  {
    RunsKeepInv(run, frame, i);
    hide IsRun, Due;
  }

  /**
   * The context ends playback only in a wait: a packet that was due on arrival is written all the same, and a timer is
   * only set for one that was not.
   */
  lemma CanceledOnlyWhileWaiting(w: World, w': World, frame: int)
    requires Next(w, w', frame) && Pending(w).Some?
    ensures w'.consumer == Finished(ContextDone) ==> w.waiting && w.canceled
    ensures w'.waiting && !w.waiting ==> w.now < w.play.nextAt && w'.consumer == w.consumer
    ensures w'.consumer != w.consumer && !w'.consumer.Finished? ==>
              w.now >= w.play.nextAt
              && w'.play.written == w.play.written + [Sent(Pending(w).value, w.now)]
  {
  }

  // ----- The pipeline finishes -----

  /** What is left for the consumer to do once nothing more is produced. */
  ghost function Work(w: World): nat
    requires w.waiting ==> Pending(w).Some?
    requires w.consumer.Replaying? ==> w.consumer.index <= |w.buffered|
  {
    var timer := if w.waiting then 0 else 1;
    match w.consumer
    case Filling => 4 * |w.channel| + 3 * |w.buffered| + 6
    case Replaying(i, _) => 4 * |w.channel| + 3 * (|w.buffered| - i) + 4 + timer
    case Ranging => 4 * |w.channel| + 4
    case Holding(_) => 4 * |w.channel| + 6 + timer
    case Awaiting => 1
    case Finished(_) => 0
  }

  lemma InvHasWork(w: World, frame: int)
    requires Inv(w, frame)
    ensures w.waiting ==> Pending(w).Some?
    ensures w.consumer.Replaying? ==> w.consumer.index <= |w.buffered|
  {
  }

  /** Once the channel is closed, only the consumer changes what is left to do, and each of its steps lowers it. */
  lemma StepsDoWork(w: World, w': World, frame: int)
    requires Inv(w, frame) && Inv(w', frame) && w.closed && Next(w, w', frame)
    ensures w'.closed && Work(w') <= Work(w)
    ensures Consume(w, w', frame) ==> Work(w') < Work(w)
  {
    hide Inv, Consume, Work;
    InvHasWork(w, frame);
    InvHasWork(w', frame);
    if Consume(w, w', frame) {
      ConsumerDoesWork(w, w', frame);
    } else {
      OthersDoNoWork(w, w', frame);
    }
  }

  lemma ConsumerDoesWork(w: World, w': World, frame: int)
    requires Inv(w, frame) && Inv(w', frame) && Consume(w, w', frame)
    ensures w'.closed == w.closed && Work(w') < Work(w)
  {
    InvHasWork(w, frame);
    InvHasWork(w', frame);
    hide Inv, Work, SetTimer, Write, WriteError, WaitCanceled;
    if SetTimer(w, w') || Write(w, w', frame) || WriteError(w, w') || WaitCanceled(w, w') {
      WritingDoesWork(w, w', frame);
    } else {
      hide AfterWrite, AfterCallback;
      MovingDoesWork(w, w', frame);
    }
  }

  lemma WritingDoesWork(w: World, w': World, frame: int)
    requires Inv(w, frame) && Inv(w', frame)
    requires SetTimer(w, w') || Write(w, w', frame) || WriteError(w, w') || WaitCanceled(w, w')
    ensures w.waiting ==> Pending(w).Some?
    ensures w.consumer.Replaying? ==> w.consumer.index <= |w.buffered|
    ensures w'.waiting ==> Pending(w').Some?
    ensures w'.consumer.Replaying? ==> w'.consumer.index <= |w'.buffered|
    ensures w'.closed == w.closed && Work(w') < Work(w)
  {
    hide Paced, Conserved, AfterWrite, AfterCallback;
    InvHasWork(w, frame);
    InvHasWork(w', frame);
  }

  lemma MovingDoesWork(w: World, w': World, frame: int)
    requires Inv(w, frame) && Inv(w', frame)
    requires || Fill(w, w') || FillCanceled(w, w') || StartReplay(w, w') || ReplayDone(w, w') || Receive(w, w')
             || RangeDone(w, w') || TakeResult(w, w')
    ensures w.waiting ==> Pending(w).Some?
    ensures w.consumer.Replaying? ==> w.consumer.index <= |w.buffered|
    ensures w'.waiting ==> Pending(w').Some?
    ensures w'.consumer.Replaying? ==> w'.consumer.index <= |w'.buffered|
    ensures w'.closed == w.closed && Work(w') < Work(w)
  {
    hide Paced, Conserved;
    InvHasWork(w, frame);
    InvHasWork(w', frame);
  }

  lemma OthersDoNoWork(w: World, w': World, frame: int)
    requires Inv(w, frame) && Inv(w', frame) && w.closed && Next(w, w', frame) && !Consume(w, w', frame)
    ensures w'.closed && Work(w') == Work(w)
  {
    hide Paced, Conserved, Consume;
    InvHasWork(w, frame);
    InvHasWork(w', frame);
  }

  /** How many of the steps from i to j are the consumer's. */
  ghost function Consumed(run: seq<World>, frame: int, i: nat, j: nat): nat
    requires i <= j < |run|
    decreases j
  {
    if i == j then 0
    else Consumed(run, frame, i, j - 1) + if Consume(run[j - 1], run[j], frame) then 1 else 0
  }

  /**
   * Whatever the schedule, from the closing of the channel on the consumer takes no more steps than it has work left.
   */
  lemma {:induction false} ConsumerFinishes(run: seq<World>, frame: int, i: nat, j: nat)
    requires IsRun(run, frame) && i <= j < |run| && run[i].closed
    ensures Inv(run[i], frame) && Inv(run[j], frame) && run[j].closed
    ensures Consumed(run, frame, i, j) + Work(run[j]) <= Work(run[i])
    decreases j
  {
    hide Inv, Next, Consume, Work;
    RunsKeepInv(run, frame, i);
    RunsKeepInv(run, frame, j);
    InvHasWork(run[i], frame);
    InvHasWork(run[j], frame);
    if i < j {
      ConsumerFinishes(run, frame, i, j - 1);
      InvHasWork(run[j - 1], frame);
      assert Next(run[j - 1], run[j - 1 + 1], frame);
      StepsDoWork(run[j - 1], run[j], frame);
    }
  }

  /** The channel never holds more than its slots, and once the producer is done the consumer can always go on. */
  lemma NeverStuck(run: seq<World>, frame: int, i: nat)
    requires IsRun(run, frame) && i < |run|
    requires run[i].result.Some? && !run[i].consumer.Finished? && run[i].play.nextAt <= run[i].now
    ensures |run[i].channel| <= 64
    ensures exists w' :: Consume(run[i], w', frame) && (w'.consumer != run[i].consumer || Fill(run[i], w'))
  {
    RunsKeepInv(run, frame, i);
    var w := run[i];
    hide IsRun, Due, Packets;
    match w.consumer {
      case Filling =>
        if |w.buffered| < PREBUFFER && w.channel != [] {
          assert Fill(w, w.(channel := w.channel[1..], buffered := w.buffered + [w.channel[0]]));
        } else {
          var next := Replaying(0, |w.buffered| == PREBUFFER);
          assert StartReplay(w, w.(consumer := next, start := w.now, play := StartPlayback(w.now)));
        }
      case Replaying(j, streaming) =>
        if j < |w.buffered| {
          var play := AfterWrite(w.play, Pending(w).value, w.now, frame);
          assert Write(w, w.(play := play, consumer := AfterPending(w.consumer), waiting := false), frame);
        } else {
          assert ReplayDone(w, w.(consumer := if streaming then Ranging else Awaiting));
        }
      case Ranging =>
        if w.channel != [] {
          assert Receive(w, w.(channel := w.channel[1..], consumer := Holding(w.channel[0])));
        } else {
          assert RangeDone(w, w.(consumer := Awaiting));
        }
      case Holding(p) =>
        assert Write(w, w.(play := AfterWrite(w.play, p, w.now, frame), consumer := Ranging, waiting := false), frame);
      case Awaiting =>
        var end := if w.result.value then ProducerFailed else if w.buffered == [] then NoPackets else Success;
        assert TakeResult(w, w.(consumer := Finished(end)));
    }
  }
}
