/** What every reachable control block satisfies, for arbitrary bytes from the
    network and any interleaving of application calls and clock ticks. */
module TcpSafety {
  import opened Ram
  import opened Checksum
  import opened Wire
  import opened TcpWire
  import opened Tcp

  predicate U32(x: int) { 0 <= x < 0x1_0000_0000 }

  predicate Ranges(t: Tcb) {
    U32(t.sndUna) && U32(t.sndNxt) && U32(t.rcvNxt) && |t.unacked| <= PAYLOAD_MAX && |t.rx| <= PAYLOAD_MAX
  }

  /** Sequence space taken by what is outstanding. */
  function Outstanding(t: Tcb): int {
    if t.inflight then |t.unacked| + (if t.unackedFin then 1 else 0) else 0
  }

  predicate SndOk(t: Tcb) { t.state != Listen ==> Mod32(t.sndNxt - t.sndUna) == Outstanding(t) }

  /** Which states have what in flight, and which have seen the peer's FIN. */
  predicate StateOk(t: Tcb) {
    && (t.state == FinWait1 || t.state == LastAck ==> t.inflight && t.unackedFin)
    && (t.state == Listen || t.state == SynRcvd || t.state == FinWait2 ==> !t.inflight)
    && (t.state == CloseWait || t.state == LastAck ==> t.peerFin)
    && (t.peerFin ==> t.state == CloseWait || t.state == LastAck || t.state == FinWait1)
    && (t.inflight && (t.state == Established || t.state == CloseWait) ==> t.appSent && !t.unackedFin)
    && (!t.inflight ==> t.unacked == [] && !t.unackedFin)
    && (t.rxPending <==> t.rx != [])
    && (t.state == Listen || t.state == SynRcvd ==> !t.rxPending && !t.appSent && !t.sawData)
  }

  predicate Inv(t: Tcb) { Ranges(t) && SndOk(t) && StateOk(t) }

  lemma SendMod(una: int, n: int)
    requires U32(una) && 0 <= n <= 1000
    ensures Mod32(Mod32(una + n) - una) == n
  {
  }

  lemma InitInv()
    ensures Inv(Fresh())
  {
  }

  lemma ResetInv(t: Tcb)
    requires Ranges(t)
    ensures Inv(ListenReset(t))
  {
  }

  lemma AckInv(t: Tcb, ack: int)
    requires Inv(t)
    ensures Inv(OnTheirAck(t, ack))
  {
  }

  lemma SendInv(t: Tcb, now: int)
    requires Ranges(t) && !t.inflight && t.sndUna == t.sndNxt
    ensures var r := SendUnacked(t, now).t;
            r.inflight && Ranges(r) && SndOk(r) && r == t.(sndNxt := r.sndNxt, inflight := true, tries := 1, deadline := r.deadline)
  {
    hide Mod64, Mod32;
    SendMod(t.sndUna, |t.unacked| + (if t.unackedFin then 1 else 0));
    assert SendUnacked(t, now).t.sndNxt == Mod32(t.sndUna + (|t.unacked| + (if t.unackedFin then 1 else 0)));
  }

  lemma AppSendInv(t: Tcb, data: seq<Byte>, fin: bool, now: int)
    requires Inv(t)
    ensures Inv(AppSend(t, data, fin, now).t)
  {
    hide SendUnacked, Mod32, Mod64;
    if AppSend(t, data, fin, now).t != t {
      var t1 := t.(unacked := data, unackedFin := fin, appSent := true, sndUna := t.sndNxt,
                   state := if !fin then t.state else if t.state == CloseWait then LastAck else FinWait1);
      SendInv(t1, now);
    }
  }

  lemma ReadInv(t: Tcb)
    requires Inv(t)
    ensures Inv(Consume(t)) && Inv(TakeEof(t))
  {
    hide Mod32;
  }

  lemma PollInv(t: Tcb, now: int)
    requires Inv(t)
    ensures Inv(CheckRto(t, now).t)
  {
    hide Mod32, Mod64;
  }

  lemma OnFinInv(t: Tcb, now: int)
    requires Inv(t) && t.state != Listen && t.state != SynRcvd
    ensures Inv(OnFin(t, now).t)
  {
    hide SendUnacked, Mod32, Mod64;
    var t1 := RxFin(t).(peerFin := true);
    if t1.state == Established && !t1.sawData && !t1.appSent {
      assert !t.inflight;
      SameSeq(t);
      SendInv(t1.(unacked := [], unackedFin := true, sndUna := t1.sndNxt, state := LastAck), now);
    }
  }

  lemma SameSeq(t: Tcb)
    requires Inv(t) && t.state != Listen && !t.inflight
    ensures t.sndUna == t.sndNxt
  {
  }

  lemma BodyInv(t: Tcb, s: Segment, now: int)
    requires Inv(t) && Framed(s) && t.state != Listen && t.state != SynRcvd
    ensures Inv(Body(t, s, now).t)
  {
    hide OnFin, Mod32, HasFin;
    var data := Data(s);
    var t1 := if data != [] && s.seqno == t.rcvNxt && TakesData(t, data)
              then QueueRx(t, data).(rcvNxt := Mod32(t.rcvNxt + |data|)) else t;
    OnFinInv(t1, now);
  }

  lemma SegmentInv(t: Tcb, s: Segment, now: int)
    requires Inv(t) && Framed(s)
    ensures Inv(OnSegment(t, s, now).t)
  {
    hide Body, OnTheirAck, Mod32, HasAck, HasSyn;
    AckInv(t, s.ack);
    var t1 := if HasAck(s) then OnTheirAck(t, s.ack) else t;
    if t1.state == SynRcvd {
      BodyInv(t1.(state := Established), s, now);
    } else if t1.state != Listen {
      BodyInv(t1, s, now);
    }
  }

  lemma SynInv(t: Tcb, s: Segment, src: Ip, now: int)
    requires Inv(t) && Framed(s)
    ensures Inv(OnSyn(t, s, src, now).t)
  {
    hide ParseMss;
  }

  lemma HandleInv(t: Tcb, p: seq<Byte>, src: Ip, dst: Ip, now: int)
    requires Inv(t)
    ensures Inv(Handle(t, p, src, dst, now).t)
  {
    hide Decode, OnSegment, OnSyn, Inv;
    var v := Decode(p, src, dst);
    if v.Deliver? {
      SegmentInv(t, v.value, now);
      SynInv(t, v.value, src, now);
      RangesOf(t);
      ResetInv(t);
    }
  }

  lemma RangesOf(t: Tcb)
    requires Inv(t)
    ensures Ranges(t)
  {
  }

  // --- runs --------------------------------------------------------------------------

  datatype Event =
    | Arrive(p: seq<Byte>, src: Ip, dst: Ip)
    | Send(data: seq<Byte>, fin: bool)
    | Read
    | AskEof
    | Poll
    | Wait(ticks: nat)

  /** One event at clock reading `now`. */
  function Step(t: Tcb, e: Event, now: int): Reply {
    match e
    case Arrive(p, src, dst) => Handle(t, p, src, dst, now)
    case Send(data, fin) => AppSend(t, data, fin, now)
    case Read => Reply(Consume(t), NoOut)
    case AskEof => Reply(TakeEof(t), NoOut)
    case Poll => CheckRto(t, now)
    case Wait(ticks) => Reply(t, NoOut)
  }

  lemma StepInv(t: Tcb, e: Event, now: int)
    requires Inv(t)
    ensures Inv(Step(t, e, now).t)
  {
    hide Inv, Handle, AppSend, CheckRto, Consume, TakeEof;
    match e
    case Arrive(p, src, dst) => HandleInv(t, p, src, dst, now);
    case Send(data, fin) => AppSendInv(t, data, fin, now);
    case Read => ReadInv(t);
    case AskEof => ReadInv(t);
    case Poll => PollInv(t, now);
    case Wait(ticks) =>
  }

  /** The state after a run; time passes only in `Wait`. */
  function After(t: Tcb, run: seq<Event>, now: nat): Tcb
    decreases run
  {
    if run == [] then t
    else
      var now' := now + (if run[0].Wait? then run[0].ticks else 0);
      After(Step(t, run[0], Mod64(now)).t, run[1..], now')
  }

  /** In every reachable control block our FIN is in flight in FIN-WAIT-1 and
      LAST-ACK, nothing is in LISTEN, SYN-RECEIVED and FIN-WAIT-2, and the send
      window spans exactly the outstanding data and FIN. */
  lemma {:induction false} ReachableInv(t: Tcb, run: seq<Event>, now: nat)
    requires Inv(t)
    ensures Inv(After(t, run, now))
    decreases run
  {
    hide Inv, Step;
    if run != [] {
      StepInv(t, run[0], Mod64(now));
      ReachableInv(Step(t, run[0], Mod64(now)).t, run[1..], now + (if run[0].Wait? then run[0].ticks else 0));
    }
  }

  /** From the control block as the kernel boots with it. */
  lemma ReachableFromBoot(run: seq<Event>, now: nat)
    ensures Inv(After(Fresh(), run, now))
  {
    hide Inv, After;
    InitInv();
    ReachableInv(Fresh(), run, now);
  }
}
