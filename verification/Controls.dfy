/** The control history itself: the operations, working in place on the per-player buffers. */
module Controls {
  import opened Wire
  import opened Peers

  class ControlState {
    const controls: array<seq<Frame>>
    const highestConfirmed: array<int>
    const remoteHighestConfirmed: array<int>
    const maxControlHistory: int
    var ourChecksums: map<int, Int32>
    var startingCycles: int
    var nplayers: nat
    var localPlayer: nat
    var delay: int
    var firstInvalidCycleVar: int

    ghost predicate Valid()
      reads this
    {
      && controls.Length == highestConfirmed.Length == remoteHighestConfirmed.Length == MAX_PLAYERS
      && highestConfirmed != remoteHighestConfirmed
      && 0 <= startingCycles
      && nplayers <= MAX_PLAYERS
    }

    ghost function View(): (s: Peer)
      requires Valid()
      reads this, controls, highestConfirmed, remoteHighestConfirmed
      ensures s.Shaped()
    {
      Peer(startingCycles, nplayers, localPlayer, delay, maxControlHistory, controls[..],
           highestConfirmed[..], remoteHighestConfirmed[..], firstInvalidCycleVar, ourChecksums)
    }

    constructor (maxHistory: int)
      ensures Valid() && fresh(controls) && fresh(highestConfirmed) && fresh(remoteHighestConfirmed)
      ensures View() == Peer(0, 1, 0, 0, maxHistory, seq(MAX_PLAYERS, _ => []), seq(MAX_PLAYERS, _ => 0),
                             seq(MAX_PLAYERS, _ => 0), -1, map[])
    {
      controls := new seq<Frame>[MAX_PLAYERS](_ => []);
      highestConfirmed := new int[MAX_PLAYERS](_ => 0);
      remoteHighestConfirmed := new int[MAX_PLAYERS](_ => 0);
      maxControlHistory := maxHistory;
      ourChecksums := map[];
      startingCycles, nplayers, localPlayer, delay, firstInvalidCycleVar := 0, 1, 0, 0, -1;
    }

    method StartLevel(levelStartingCycles: int, levelNplayers: nat, levelLocalPlayer: nat)
      requires Valid() && levelNplayers <= MAX_PLAYERS && levelStartingCycles >= 0
      modifies this, controls, highestConfirmed, remoteHighestConfirmed
      ensures Valid()
      ensures View() == NewLevel(old(View()), levelStartingCycles, levelNplayers, levelLocalPlayer)
      ensures forall n :: 0 <= n < MAX_PLAYERS ==>
        controls[n] == [] && highestConfirmed[n] == remoteHighestConfirmed[n] == 0
      ensures startingCycles == levelStartingCycles && nplayers == levelNplayers && localPlayer == levelLocalPlayer
    {
      startingCycles := levelStartingCycles;
      nplayers := levelNplayers;
      localPlayer := levelLocalPlayer;
      for n := 0 to MAX_PLAYERS
        modifies controls
        invariant forall k :: 0 <= k < n ==> controls[k] == []
      {
        controls[n] := [];
      }
      for n := 0 to MAX_PLAYERS
        modifies highestConfirmed
        invariant forall k :: 0 <= k < n ==> highestConfirmed[k] == 0
      {
        highestConfirmed[n] := 0;
      }
      for n := 0 to MAX_PLAYERS
        modifies remoteHighestConfirmed
        invariant forall k :: 0 <= k < n ==> remoteHighestConfirmed[k] == 0
      {
        remoteHighestConfirmed[n] := 0;
      }
    }

    method OurHighestConfirmed() returns (res: int)
      requires Valid()
      ensures res == OurHighest(View())
    {
      res := -1;
      for n := 0 to nplayers
        invariant res == ScanMin(highestConfirmed[..], -1, n)
      {
        if res == -1 || highestConfirmed[n] < res {
          res := highestConfirmed[n];
        }
      }
    }

    method TheirHighestConfirmed() returns (res: int)
      requires Valid()
      ensures res == TheirHighest(View())
    {
      res := -1;
      for n := 0 to nplayers
        invariant res == ScanMin(remoteHighestConfirmed[..], localPlayer, n)
      {
        if n == localPlayer {
          continue;
        }
        if res == -1 || remoteHighestConfirmed[n] < res {
          res := remoteHighestConfirmed[n];
        }
      }
    }

    method LocalControlsEnd() returns (end: int)
      requires Valid()
      ensures end == View().End()
    {
      if localPlayer >= nplayers {
        return 0;
      }
      end := |controls[localPlayer]| + startingCycles;
    }

    /** One frame of local input, taken from wherever the keys are read. */
    method ReadLocalControls(state: Frame)
      requires Valid()
      modifies this, controls, highestConfirmed
      ensures Valid() && View() == ReadLocal(old(View()), state)
    {
      if localPlayer >= nplayers {
        return;
      }
      ghost var s := View();
      controls[localPlayer] := controls[localPlayer] + [state];
      highestConfirmed[localPlayer] := highestConfirmed[localPlayer] + 1;
      CarryOthersAlong();
      assert View() == Extended(s, state);
      if 0 <= maxControlHistory <= |controls[localPlayer]| {
        DropOldestHalf();
      }
    }

    /** Everybody else is taken to have gone on doing what they did last. */
    method CarryOthersAlong()
      requires Valid() && localPlayer < nplayers
      modifies controls
      ensures controls[..] == CarriedAlong(old(controls[..]), localPlayer, nplayers)
    {
      for n := 0 to nplayers
        invariant controls[..] == CarriedAlong(old(controls[..]), localPlayer, n)
      {
        CarryAlong(n);
      }
    }

    method CarryAlong(n: nat)
      requires Valid() && localPlayer < nplayers && n < nplayers
      modifies controls
      ensures controls[..] == old(controls[..])[n := old(Predicted(controls[n], |controls[localPlayer]|))]
    {
      ghost var c := controls[n];
      while n != localPlayer && |controls[n]| < |controls[localPlayer]|
        invariant forall k :: 0 <= k < MAX_PLAYERS && k != n ==> controls[k] == old(controls[k])
        invariant c <= controls[n]
        invariant controls[n] == c || (n != localPlayer && |controls[n]| <= |controls[localPlayer]|)
        invariant forall i :: |c| <= i < |controls[n]| ==> controls[n][i] == LastFrame(c)
        decreases |controls[localPlayer]| - |controls[n]|
      {
        if controls[n] == [] {
          controls[n] := controls[n] + [NO_INPUT];
        } else {
          controls[n] := controls[n] + [controls[n][|controls[n]| - 1]];
        }
      }
      assert controls[n] == old(Predicted(c, |controls[localPlayer]|));
    }

    /** Every player has more frames than are erased, so the source's check here never fires. */
    method DropOldestHalf()
      requires Valid() && localPlayer < nplayers && controls[localPlayer] != []
      requires forall n :: 0 <= n < nplayers ==> |controls[n]| >= |controls[localPlayer]|
      modifies this`startingCycles, controls
      ensures Valid()
      ensures startingCycles == old(startingCycles) + old(|controls[localPlayer]|) / 2
      ensures controls[..] == WithoutFirst(old(controls[..]), nplayers, old(|controls[localPlayer]|) / 2)
    {
      var nerase := |controls[localPlayer]| / 2;
      startingCycles := startingCycles + nerase;
      for n := 0 to nplayers
        modifies controls
        invariant controls[..] == WithoutFirst(old(controls[..]), n, nerase)
      {
        assert |controls[n]| > nerase;
        controls[n] := controls[n][nerase..];
      }
    }

    method UnreadLocalControls()
      requires Valid()
      modifies controls, highestConfirmed
      ensures Valid() && View() == UnreadLocal(old(View()))
    {
      if localPlayer >= nplayers || controls[localPlayer] == [] {
        return;
      }
      controls[localPlayer] := controls[localPlayer][..|controls[localPlayer]| - 1];
      highestConfirmed[localPlayer] := highestConfirmed[localPlayer] - 1;
    }

    /** Reads, or takes back, local frames until the local history ends with cycle `ncycle`. */
    method ReadUntil(ncycle: nat, input: int -> Frame)
      requires Valid()
      modifies this, controls, highestConfirmed
      ensures Valid()
      ensures old(localPlayer >= nplayers) ==> View() == old(View())
      ensures old(localPlayer < nplayers) ==> View().End() == ncycle + 1
      ensures var s := old(View()); s.local < s.nplayers ==>
        View() == if s.End() <= ncycle then ReadMany(s, input, ncycle + 1 - s.End()) else Rewound(s, ncycle + 1)
    {
      if localPlayer >= nplayers {
        return;
      }
      if startingCycles + |controls[localPlayer]| <= ncycle {
        ReadForward(ncycle, input);
      } else {
        UnreadBack(ncycle);
      }
    }

    method ReadForward(ncycle: nat, input: int -> Frame)
      requires Valid() && localPlayer < nplayers && View().End() <= ncycle + 1
      modifies this, controls, highestConfirmed
      ensures Valid() && localPlayer < nplayers && View().End() == ncycle + 1
      ensures View() == ReadMany(old(View()), input, ncycle + 1 - old(View().End()))
    {
      hide ReadLocal;
      ghost var s := View();
      while startingCycles + |controls[localPlayer]| <= ncycle
        invariant Valid() && localPlayer < nplayers
        invariant s.End() <= View().End() <= ncycle + 1
        invariant View() == ReadMany(s, input, View().End() - s.End())
        decreases ncycle - (startingCycles + |controls[localPlayer]|)
      {
        ReadAddsOneCycle(View(), input(View().End()));
        ReadLocalControls(input(startingCycles + |controls[localPlayer]|));
      }
    }

    method UnreadBack(ncycle: nat)
      requires Valid() && localPlayer < nplayers && ncycle + 1 <= View().End()
      modifies this`startingCycles, controls, highestConfirmed
      ensures Valid() && View().End() == ncycle + 1
      ensures View() == Rewound(old(View()), ncycle + 1)
    {
      ghost var t := View();
      RewoundStep(t, t.End());
      while startingCycles + |controls[localPlayer]| > ncycle + 1
        invariant Valid() && ncycle + 1 <= View().End() <= t.End()
        invariant t.start <= View().End() || View().End() == ncycle + 1
        invariant View() == Rewound(t, View().End())
        decreases startingCycles + |controls[localPlayer]|
      {
        RewoundStep(t, View().End());
        UnreadLocalControls();
        if controls[localPlayer] == [] && startingCycles > ncycle + 1 {
          startingCycles := ncycle + 1;
        }
      }
    }

    method FirstInvalidCycle() returns (c: int)
      requires Valid()
      ensures c == View().firstInvalid
    {
      c := firstInvalidCycleVar;
    }

    method MarkValid()
      requires Valid()
      modifies this`firstInvalidCycleVar
      ensures Valid() && View() == old(View()).(firstInvalid := -1)
    {
      firstInvalidCycleVar := -1;
    }

    method GetControlStatus(cycle: int, player: nat) returns (status: Status)
      requires Valid() && player < MAX_PLAYERS
      requires StatusIndex(View(), cycle) < |controls[player]|
      ensures status == ControlStatus(View(), cycle, player)
    {
      var i := cycle - 1;
      i := i - startingCycles;
      i := i - delay;
      if i < 0 {
        return Released;
      }
      var f := controls[player][i];
      var keys := new bool[NUM_CONTROLS](n => false);
      for n := 0 to NUM_CONTROLS
        invariant forall k :: 0 <= k < n ==> keys[k] == KeyBit(f.keys, k)
      {
        keys[n] := KeyBit(f.keys, n);
      }
      status := Held(keys[..], f.user);
    }

    // ---- Packets out ----

    method WriteControlPacket(v: seq<Byte>) returns (r: seq<Byte>)
      requires Valid()
      requires localPlayer < nplayers ==> FitsWire(PacketOf(View()))
      modifies this`ourChecksums
      ensures Valid() && View() == AfterWrite(old(View()))
      ensures localPlayer >= nplayers ==> r == v
      ensures localPlayer < nplayers ==> r == v + Encode(old(PacketOf(View())))
    {
      r := v;
      if localPlayer >= nplayers {
        return;
      }
      hide EncodeInt32, EncodeFrames, Header, PacketOf, AfterWrite, Encode;
      ghost var p := PacketOf(View());
      var currentCycle, checksum, ours, ncyclesToWrite := HeaderFieldsToWrite();
      r := WriteHeader(r, currentCycle, checksum, ours, ncyclesToWrite, p);
      r := WriteFrames(r, ncyclesToWrite);
      HeaderThenFrames(v, p);
    }

    /** Slot, cycle, checksum, confirmation and number of frames. */
    method WriteHeader(v: seq<Byte>, currentCycle: Int32, checksum: Int32, ours: Int32, ncyclesToWrite: Int32, ghost p: Packet)
      returns (r: seq<Byte>)
      requires FitsWire(p) && localPlayer == p.slot && currentCycle == p.current && checksum == p.checksum
      requires ours == p.ack && ncyclesToWrite == |p.frames|
      ensures r == v + Header(p)
    {
      hide EncodeInt32;
      r := v + [localPlayer];
      r := r + EncodeInt32(currentCycle);
      r := r + EncodeInt32(checksum);
      r := r + EncodeInt32(ours);
      r := r + EncodeInt32(ncyclesToWrite);
      HeaderInPieces(v, p);
    }

    method HeaderFieldsToWrite() returns (currentCycle: int, checksum: int, ours: int, ncyclesToWrite: nat)
      requires Valid() && localPlayer < nplayers
      modifies this`ourChecksums
      ensures Valid() && View() == AfterWrite(old(View()))
      ensures ncyclesToWrite <= |controls[localPlayer]|
      ensures old(PacketOf(View())) == Packet(localPlayer, currentCycle, checksum, ours,
                                              controls[localPlayer][|controls[localPlayer]| - ncyclesToWrite..])
    {
      currentCycle := startingCycles + |controls[localPlayer]| - 1;
      ourChecksums := Touch(ourChecksums, currentCycle - 1);
      checksum := ourChecksums[currentCycle - 1];
      ours := OurHighestConfirmed();
      var theirs := TheirHighestConfirmed();
      var n := 1 + currentCycle - theirs;
      if n < 0 || n > |controls[localPlayer]| {
        n := |controls[localPlayer]|;
      }
      ncyclesToWrite := n;
    }

    /** The last `count` local frames, each followed by its text and a NUL. */
    method WriteFrames(v: seq<Byte>, count: nat) returns (r: seq<Byte>)
      requires Valid() && localPlayer < nplayers && count <= |controls[localPlayer]|
      ensures r == v + EncodeFrames(controls[localPlayer][|controls[localPlayer]| - count..])
    {
      r := v;
      ghost var fs := controls[localPlayer][|controls[localPlayer]| - count..];
      for n := 0 to count
        invariant r == v + EncodeFrames(fs[..n])
      {
        var index := (|controls[localPlayer]| - count) + n;
        var f := controls[localPlayer][index];
        r := r + [f.keys];
        r := r + f.user + [0];
        EncodeFramesSnoc(fs[..n], f);
        assert fs[..n + 1] == fs[..n] + [f];
        assert r == v + (EncodeFrames(fs[..n]) + EncodeFrame(f));
      }
      assert fs[..count] == fs;
    }

    // ---- Packets in ----

    /**
     * Reads a packet. `accepted` says that it was read to its last frame, and `pos` where reading stopped.
     * On the bytes of a packet the effect is that of Receive, whatever the packet says.
     */
    method ReadControlPacket(buf: seq<Byte>) returns (accepted: bool, pos: nat)
      requires Valid() && ReadsInside(View(), buf)
      modifies this, controls, highestConfirmed, remoteHighestConfirmed
      ensures Valid()
      ensures forall p :: FitsWire(p) && buf == Encode(p) ==>
        && !ReadsBefore(old(View()), p) && View() == Receive(old(View()), p)
        && accepted == Processed(old(View()), p)
        && (accepted ==> pos == |buf|)
      ensures !accepted ==> highestConfirmed[..] == old(highestConfirmed[..])
      ensures startingCycles == old(startingCycles) && localPlayer == old(localPlayer) && nplayers == old(nplayers)
      ensures forall n :: 0 <= n < MAX_PLAYERS && (|buf| == 0 || n != buf[0] || n == localPlayer) ==>
        controls[n] == old(controls[n]) && highestConfirmed[n] == old(highestConfirmed[n])
    {
      hide EncodeFrames, EncodeInt32, DecodeInt32, Header, Receive, ReadsInside, Processed;
      accepted, pos := false, 0;
      ghost var isPacket := exists p :: FitsWire(p) && buf == Encode(p);
      ghost var p: Packet :| !isPacket || (FitsWire(p) && buf == Encode(p));
      if isPacket {
        HeaderFields(p);
        OnlyPacket(buf, p);
        ReadsInsidePacket(View(), p);
      }
      if |buf| < 13 {
        return;
      }
      accepted, pos := ReadHeaderAndFrames(buf, isPacket, p);
    }

    method ReadHeaderAndFrames(buf: seq<Byte>, ghost isPacket: bool, ghost p: Packet)
      returns (accepted: bool, pos: nat)
      requires Valid() && |buf| >= 13 && ReadsInside(View(), buf)
      requires isPacket ==> FitsWire(p) && Carries(buf, p) && !ReadsBefore(View(), p)
      modifies this, controls, highestConfirmed, remoteHighestConfirmed
      ensures Valid()
      ensures isPacket ==> View() == Receive(old(View()), p)
      ensures isPacket ==> accepted == Processed(old(View()), p)
      ensures isPacket && accepted ==> pos == |buf|
      ensures !accepted ==> highestConfirmed[..] == old(highestConfirmed[..])
      ensures startingCycles == old(startingCycles) && localPlayer == old(localPlayer) && nplayers == old(nplayers)
      ensures forall n :: 0 <= n < MAX_PLAYERS && (n != buf[0] || n == localPlayer) ==>
        controls[n] == old(controls[n]) && highestConfirmed[n] == old(highestConfirmed[n])
    {
      hide Receive, Processed, ReadsBefore, ReadsInside, FromOther, Accepts, Corrected, Marked, Acknowledged, EncodeFrames,
           Carries, CarriedOn, DecodeInt32, RunIs, AfterRun;
      accepted, pos := false, 0;
      ghost var s := View();
      BeforeCount(s, buf);
      var go, slot, currentCycle, ncycles := ReadHeader(buf, isPacket, p);
      if !go {
        if isPacket {
          Refused(s, p);
        }
        return;
      }
      ghost var a := View();
      accepted, pos := ReadAndConfirm(buf, slot, currentCycle, ncycles, p.frames);
      if isPacket {
        ReceivedAfter(s, a, p, controls[slot], firstInvalidCycleVar, accepted);
      }
    }

    /** The frames of a packet, which are confirmed if they were read to their end. */
    method ReadAndConfirm(buf: seq<Byte>, slot: nat, currentCycle: int, ncycles: int, ghost frames: seq<Frame>)
      returns (accepted: bool, pos: nat)
      requires Valid() && slot < MAX_PLAYERS && |buf| >= 17 && buf[|buf| - 1] == 0
      requires currentCycle >= highestConfirmed[slot]
      requires ncycles <= 0 && currentCycle == startingCycles - 1 ==> controls[slot] == []
      modifies this`firstInvalidCycleVar, controls, highestConfirmed
      ensures View() == AfterRun(old(View()), slot, controls[slot], accepted, currentCycle, firstInvalidCycleVar)
      ensures buf[17..] == EncodeFrames(frames) && |frames| == ncycles ==>
        && RunIs(old(View()), slot, currentCycle, frames, controls[slot], firstInvalidCycleVar, accepted)
        && (accepted ==> pos == |buf|)
      ensures !accepted ==> highestConfirmed[..] == old(highestConfirmed[..])
      ensures forall n :: 0 <= n < MAX_PLAYERS && n != slot ==>
        controls[n] == old(controls[n]) && highestConfirmed[n] == old(highestConfirmed[n])
    {
      hide EncodeFrames, RunIs, Becomes;
      ghost var a := View();
      accepted, pos := ReadRun(buf, slot, currentCycle, ncycles, frames);
      if accepted {
        highestConfirmed[slot] := currentCycle;
      }
      assert controls[..] == a.controls[slot := controls[slot]];
    }

    /** Reads the header and takes note of the acknowledgement, unless the packet is refused. */
    method ReadHeader(buf: seq<Byte>, ghost isPacket: bool, ghost p: Packet)
      returns (go: bool, slot: nat, currentCycle: int, ncycles: int)
      requires Valid() && |buf| >= 13 && (FromOther(View(), buf) ==> |buf| >= 17)
      requires isPacket ==> FitsWire(p) && Carries(buf, p)
      modifies this`ourChecksums, remoteHighestConfirmed
      ensures Valid() && slot == buf[0]
      ensures isPacket ==> slot == p.slot && go == Accepts(old(View()), p)
      ensures isPacket && go ==> currentCycle == p.current && ncycles == |p.frames| && buf[17..] == EncodeFrames(p.frames)
      ensures isPacket && p.frames == [] ==> |buf| == 17
      ensures isPacket ==> View() == if go then Acknowledged(old(View()), p) else old(View())
      ensures remoteHighestConfirmed[..] ==
        var ack := DecodeInt32(buf[9..13]);
        if FromOther(old(View()), buf) && ack > old(remoteHighestConfirmed[slot]) then
          old(remoteHighestConfirmed[..])[slot := ack]
        else old(remoteHighestConfirmed[..])
      ensures go <==> FromOther(old(View()), buf) && buf[|buf| - 1] == 0
      ensures go ==> |buf| >= 17 && currentCycle == DecodeInt32(buf[1..5]) && ncycles == DecodeInt32(buf[13..17])
    {
      hide DecodeInt32, EncodeFrames, Touch;
      slot, currentCycle, ncycles, go := buf[0], 0, 0, false;
      if slot >= nplayers {
        return;
      }
      if slot == localPlayer {
        return;
      }
      currentCycle := DecodeInt32(buf[1..5]);
      if currentCycle < highestConfirmed[slot] {
        return;
      }
      var checksum := DecodeInt32(buf[5..9]);
      if checksum != 0 {
        ourChecksums := Touch(ourChecksums, currentCycle - 1);
      }
      var highestCycle := DecodeInt32(buf[9..13]);
      if highestCycle > remoteHighestConfirmed[slot] {
        remoteHighestConfirmed[slot] := highestCycle;
      }
      ncycles := DecodeInt32(buf[13..17]);
      if buf[|buf| - 1] != 0 {
        return;
      }
      go := true;
    }

    /** The frames of a packet, from the first that is not already known. */
    method ReadRun(buf: seq<Byte>, slot: nat, currentCycle: int, ncycles: int, ghost frames: seq<Frame>)
      returns (accepted: bool, pos: nat)
      requires Valid() && slot < MAX_PLAYERS && |buf| >= 17 && buf[|buf| - 1] == 0
      requires currentCycle >= highestConfirmed[slot]
      requires ncycles <= 0 && currentCycle == startingCycles - 1 ==> controls[slot] == []
      modifies this`firstInvalidCycleVar, controls
      ensures forall n :: 0 <= n < MAX_PLAYERS && n != slot ==> controls[n] == old(controls[n])
      ensures ncycles <= 0 ==>
        pos == 17 && Becomes(old(View()), slot, 1 + currentCycle - ncycles, currentCycle, [], controls[slot], firstInvalidCycleVar, accepted)
      ensures buf[17..] == EncodeFrames(frames) && |frames| == ncycles ==>
        && RunIs(old(View()), slot, currentCycle, frames, controls[slot], firstInvalidCycleVar, accepted)
        && (accepted ==> pos == |buf|)
    {
      hide EncodeFrames, Becomes;
      ghost var a := View();
      pos := 17;
      ghost var fs := frames;
      var startCycle := 1 + currentCycle - ncycles;
      if startCycle < highestConfirmed[slot] {
        var diff := highestConfirmed[slot] - startCycle;
        var ok;
        ok, pos := SkipFrames(buf, pos, diff, fs);
        if !ok {
          return false, pos;
        }
        fs := if |fs| == ncycles then fs[diff..] else fs;
        startCycle := highestConfirmed[slot];
      }
      accepted, pos := ReadFrom(buf, pos, slot, startCycle, currentCycle, fs);
    }

    /** The frames for cycles startCycle to currentCycle, the last of which is carried on. */
    method ReadFrom(buf: seq<Byte>, start: nat, slot: nat, startCycle: int, currentCycle: int, ghost fs: seq<Frame>)
      returns (accepted: bool, pos: nat)
      requires Valid() && slot < MAX_PLAYERS && start <= |buf| && |buf| > 0 && buf[|buf| - 1] == 0
      requires startCycle > currentCycle == startingCycles - 1 ==> controls[slot] == []
      modifies this`firstInvalidCycleVar, controls
      ensures forall n :: 0 <= n < MAX_PLAYERS && n != slot ==> controls[n] == old(controls[n])
      ensures startCycle > currentCycle ==>
        pos == start && Becomes(old(View()), slot, startCycle, currentCycle, [], controls[slot], firstInvalidCycleVar, accepted)
      ensures buf[start..] == EncodeFrames(fs) && |fs| == currentCycle + 1 - startCycle ==>
        && Becomes(old(View()), slot, startCycle, currentCycle, fs, controls[slot], firstInvalidCycleVar, accepted)
        && (accepted ==> pos == |buf|)
    {
      hide EncodeFrames, Spliced, CarriedFrom, Marked;
      accepted, pos := true, start;
      if startCycle <= currentCycle {
        accepted, pos := ProcessFrames(buf, pos, slot, startCycle, currentCycle, fs);
      } else if fs == [] && buf[start..] == EncodeFrames(fs) {
        NoFrames(buf, start);
      }
      if accepted {
        CarryToEnd(slot, currentCycle - startingCycles);
      }
    }

    method SkipFrames(buf: seq<Byte>, start: nat, diff: nat, ghost fs: seq<Frame>) returns (ok: bool, pos: nat)
      requires start <= |buf| && |buf| > 0 && buf[|buf| - 1] == 0
      ensures pos <= |buf|
      ensures buf[start..] == EncodeFrames(fs) && diff <= |fs| ==> ok && buf[pos..] == EncodeFrames(fs[diff..])
    {
      hide EncodeFrames, EncodeFrame;
      pos := start;
      ghost var wf := buf[start..] == EncodeFrames(fs) && diff <= |fs|;
      var n := 0;
      assert fs[0..] == fs;
      while n != diff && pos != |buf|
        invariant 0 <= n <= diff && pos <= |buf|
        invariant wf ==> buf[pos..] == EncodeFrames(fs[n..])
        decreases diff - n
      {
        ghost var before := pos;
        if wf {
          FrameThere(buf, pos, fs[n..]);
        }
        pos := pos + 1;
        if pos == |buf| {
          return false, pos;
        }
        var end := FindNul(buf, pos);
        if wf {
          OneFrame(buf, before, end);
          NextFrame(buf, before, Frame(buf[before], buf[pos..end]), end + 1, fs[n..]);
          assert fs[n..][1..] == fs[n + 1..];
        }
        pos := end + 1;
        n := n + 1;
      }
      if wf && n != diff {
        FrameThere(buf, pos, fs[n..]);
      }
      ok := true;
    }

    /**
     * Puts the frames for cycles startCycle to currentCycle in place. When they are the run fs, the
     * history becomes that of Spliced, every wrong frame replaced is marked, and all of buf is used up.
     */
    method ProcessFrames(buf: seq<Byte>, start: nat, slot: nat, startCycle: int, currentCycle: int,
                         ghost fs: seq<Frame>)
      returns (ok: bool, pos: nat)
      requires Valid() && slot < MAX_PLAYERS && startCycle <= currentCycle
      requires start <= |buf| && |buf| > 0 && buf[|buf| - 1] == 0
      modifies this`firstInvalidCycleVar, controls
      ensures forall n :: 0 <= n < MAX_PLAYERS && n != slot ==> controls[n] == old(controls[n])
      ensures ok ==> 0 <= currentCycle - startingCycles < |controls[slot]|
      ensures buf[start..] == EncodeFrames(fs) && |fs| == currentCycle + 1 - startCycle ==>
        if startCycle < startingCycles then
          !ok && controls[slot] == old(controls[slot]) && firstInvalidCycleVar == old(firstInvalidCycleVar)
        else
          var (c, lo) := (old(controls[slot]), startCycle - startingCycles);
          && ok && pos == |buf|
          && controls[slot] == Spliced(c, lo, fs)
          && firstInvalidCycleVar ==
               Marked(old(firstInvalidCycleVar), startingCycles, c, Corrected(c, lo, fs), lo, lo + |fs|)
    {
      hide Progress, EncodeFrames, EncodeFrame, Spliced, Marked, Earliest;
      pos := start;
      ghost var wf := buf[start..] == EncodeFrames(fs) && |fs| == currentCycle + 1 - startCycle;
      ghost var c, invalid, lo := controls[slot], firstInvalidCycleVar, startCycle - startingCycles;
      if wf {
        ProgressStart(c, lo, fs, startingCycles, invalid);
        assert fs[0..] == fs;
      }
      var cycle := startCycle;
      while cycle <= currentCycle
        invariant startCycle <= cycle <= currentCycle + 1 && pos <= |buf|
        invariant forall n :: 0 <= n < MAX_PLAYERS && n != slot ==> controls[n] == old(controls[n])
        invariant cycle > startCycle ==> lo >= 0 && |controls[slot]| >= cycle - startingCycles
        invariant cycle == startCycle ==> controls[slot] == c && firstInvalidCycleVar == invalid
        invariant wf ==> buf[pos..] == EncodeFrames(fs[cycle - startCycle..])
        invariant wf ==> Progress(c, lo, fs, cycle - startCycle, startingCycles, controls[slot], invalid, firstInvalidCycleVar)
        decreases currentCycle - cycle
      {
        ghost var k := cycle - startCycle;
        var read, state, next := ReadFrame(buf, pos);
        if wf {
          FrameThere(buf, pos, fs[k..]);
        }
        if !read {
          return false, pos;
        }
        if wf {
          NextFrame(buf, pos, state, next, fs[k..]);
          assert fs[k..][1..] == fs[k + 1..];
        }
        pos := next;
        if cycle - startingCycles < 0 {
          return false, pos;
        }
        if wf {
          ProgressStep(c, lo, fs, k, startingCycles, controls[slot], invalid, firstInvalidCycleVar);
        }
        PutFrame(slot, cycle, state);
        cycle := cycle + 1;
      }
      ok := true;
      if wf {
        ProgressEnd(buf, pos, c, lo, fs, startingCycles, controls[slot], invalid, firstInvalidCycleVar);
      }
    }

    /** One frame stored over a guess, or the history brought up to its cycle. */
    method PutFrame(slot: nat, cycle: int, state: Frame)
      requires Valid() && slot < MAX_PLAYERS && cycle >= startingCycles
      modifies this`firstInvalidCycleVar, controls
      ensures controls[..] == old(controls[..])[slot := Spliced(old(controls[slot]), cycle - startingCycles, [state])]
      ensures var (c, i) := (old(controls[slot]), cycle - startingCycles);
        firstInvalidCycleVar ==
          if i < |c| && c[i] != state then Earliest(old(firstInvalidCycleVar), cycle) else old(firstInvalidCycleVar)
    {
      var cycleIndex := cycle - startingCycles;
      ghost var c := controls[slot];
      if cycleIndex < |controls[slot]| {
        if controls[slot][cycleIndex] != state {
          controls[slot] := controls[slot][cycleIndex := state];
          if firstInvalidCycleVar == -1 || firstInvalidCycleVar > cycle {
            firstInvalidCycleVar := cycle;
          }
        }
      } else {
        while |controls[slot]| <= cycleIndex
          modifies controls
          invariant forall n :: 0 <= n < MAX_PLAYERS && n != slot ==> controls[n] == old(controls[n])
          invariant c <= controls[slot] && |controls[slot]| <= cycleIndex + 1
          invariant forall i :: |c| <= i < |controls[slot]| ==> controls[slot][i] == state
        {
          controls[slot] := controls[slot] + [state];
        }
      }
      assert controls[slot] == Spliced(c, cycleIndex, [state]);
    }

    /**
     * Input is taken not to change until a packet says so. An index from which the first to be overwritten is
     * negative makes that one, which has no sign, lie behind every history.
     */
    method CarryToEnd(slot: nat, currentIndex: int)
      requires Valid() && slot < MAX_PLAYERS && (currentIndex == -1 ==> controls[slot] == [])
      modifies controls
      ensures controls[..] == old(controls[..])[slot := CarriedOn(old(controls[slot]), currentIndex)]
    {
      ghost var c := controls[slot];
      if currentIndex < |controls[slot]| - 1 && currentIndex + 1 >= 0 {
        for n := currentIndex + 1 to |controls[slot]|
          invariant forall k :: 0 <= k < MAX_PLAYERS && k != slot ==> controls[k] == old(controls[k])
          invariant |controls[slot]| == |c|
          invariant forall i :: 0 <= i < |c| ==>
            controls[slot][i] == if currentIndex < i < n then c[currentIndex] else c[i]
        {
          controls[slot] := controls[slot][n := controls[slot][currentIndex]];
        }
      }
      assert controls[slot] == CarriedOn(c, currentIndex);
    }
  }

  /** The next frame of a packet, unless the buffer is used up first. */
  method ReadFrame(buf: seq<Byte>, pos: nat) returns (ok: bool, state: Frame, next: nat)
    requires pos <= |buf| && |buf| > 0 && buf[|buf| - 1] == 0
    ensures ok <==> pos + 2 <= |buf|
    ensures ok ==> pos < next <= |buf| && buf[pos..next] == EncodeFrame(state)
  {
    ok, state, next := false, NO_INPUT, pos;
    if pos == |buf| {
      return;
    }
    var keys := buf[pos];
    if pos + 1 == |buf| {
      return;
    }
    var end := FindNul(buf, pos + 1);
    ok, state, next := true, Frame(keys, buf[pos + 1..end]), end + 1;
  }

  /** The bytes come from another player of the level and are not older than what we have. */
  predicate FromOther(s: Peer, buf: seq<Byte>)
    requires s.Shaped() && |buf| >= 13
  {
    buf[0] < s.nplayers && buf[0] != s.local && DecodeInt32(buf[1..5]) >= s.confirmed[buf[0]]
  }

  /**
   * The reader stays inside the buffer and the history: it is given the count of the frames if it comes to read
   * it, and where this promises none, no history goes on right behind the cycle the bytes are of.
   */
  predicate ReadsInside(s: Peer, buf: seq<Byte>)
    requires s.Shaped()
  {
    |buf| >= 13 && FromOther(s, buf) ==>
      && |buf| >= 17
      && (buf[|buf| - 1] == 0 && DecodeInt32(buf[13..17]) <= 0 && DecodeInt32(buf[1..5]) == s.start - 1 ==>
            s.controls[buf[0]] == [])
  }

  /** The bytes of a packet are read inside the history if and only if it is not one that leads in front of it. */
  lemma ReadsInsidePacket(s: Peer, p: Packet)
    requires s.Shaped() && FitsWire(p)
    ensures ReadsInside(s, Encode(p)) <==> !ReadsBefore(s, p)
  {
    hide DecodeInt32, EncodeInt32, EncodeFrames;
    HeaderFields(p);
  }

  /** What the reader relies on where it comes to read the count, and the history. */
  lemma BeforeCount(s: Peer, buf: seq<Byte>)
    requires s.Shaped() && |buf| >= 13 && ReadsInside(s, buf)
    ensures FromOther(s, buf) ==> buf[0] < s.nplayers && buf[0] != s.local && |buf| >= 17
    ensures FromOther(s, buf) ==> DecodeInt32(buf[1..5]) >= s.confirmed[buf[0]]
    ensures FromOther(s, buf) ==>
      (buf[|buf| - 1] == 0 && DecodeInt32(buf[13..17]) <= 0 && DecodeInt32(buf[1..5]) == s.start - 1 ==> s.controls[buf[0]] == [])
  {
    hide DecodeInt32;
  }

  lemma Refused(s: Peer, p: Packet)
    requires s.Shaped() && !ReadsBefore(s, p) && !Accepts(s, p)
    ensures Receive(s, p) == s && !Processed(s, p)
  {
  }

  /** A peer after the frames of a packet have been read. */
  function AfterRun(a: Peer, slot: nat, history: seq<Frame>, accepted: bool, current: int, invalid: int): Peer
    requires a.Shaped() && slot < MAX_PLAYERS
  {
    a.(controls := a.controls[slot := history], firstInvalid := invalid,
       confirmed := if accepted then a.confirmed[slot := current] else a.confirmed)
  }

  /** What the frames for the cycles from startCycle to current make of one history and the mark. */
  ghost predicate Becomes(a: Peer, slot: nat, startCycle: int, current: int, fs: seq<Frame>,
                          history: seq<Frame>, invalid: int, accepted: bool)
    requires a.Shaped() && slot < MAX_PLAYERS
  {
    var c, lo := a.controls[slot], startCycle - a.start;
    if startCycle > current then accepted && invalid == a.firstInvalid && history == CarriedOn(c, current - a.start)
    else if lo < 0 then !accepted && invalid == a.firstInvalid && history == c
    else
      && accepted && |fs| == current + 1 - startCycle && history == Corrected(c, lo, fs)
      && invalid == Marked(a.firstInvalid, a.start, c, history, lo, lo + |fs|)
  }

  /** What the frames of a packet do, the first of which may be known. */
  ghost predicate RunIs(a: Peer, slot: nat, current: int, frames: seq<Frame>, history: seq<Frame>, invalid: int, accepted: bool)
    requires a.Shaped() && slot < MAX_PLAYERS && current >= a.confirmed[slot]
  {
    var first := 1 + current - |frames|;
    var from := if first < a.confirmed[slot] then a.confirmed[slot] else first;
    Becomes(a, slot, from, current, frames[from - first..], history, invalid, accepted)
  }

  lemma NoFrames(buf: seq<Byte>, pos: nat)
    requires pos <= |buf| && buf[pos..] == EncodeFrames([])
    ensures pos == |buf|
  {
  }

  lemma ReceivedAfter(s: Peer, a: Peer, p: Packet, history: seq<Frame>, invalid: int, accepted: bool)
    requires s.Shaped() && !ReadsBefore(s, p) && Accepts(s, p) && a == Acknowledged(s, p)
    requires p.slot < MAX_PLAYERS && p.current >= a.confirmed[p.slot]
    requires RunIs(a, p.slot, p.current, p.frames, history, invalid, accepted)
    ensures accepted == Processed(s, p)
    ensures AfterRun(a, p.slot, history, accepted, p.current, invalid) == Receive(s, p)
  {
    hide Corrected, Marked, CarriedOn, Acknowledged, NewHistory, Accepts;
    AcknowledgedKeeps(s, p);
    SlotInRange(s, p);
    if p.frames != [] && accepted {
      NewHistoryIs(s, p);
    }
    if !accepted {
      assert a.controls[p.slot := history] == a.controls;
    }
  }

  lemma AcknowledgedKeeps(s: Peer, p: Packet)
    requires s.Shaped() && Accepts(s, p)
    ensures var a := Acknowledged(s, p);
      a.start == s.start && a.controls == s.controls && a.confirmed == s.confirmed && a.firstInvalid == s.firstInvalid
  {
  }

  lemma SlotInRange(s: Peer, p: Packet)
    requires s.Shaped() && Accepts(s, p)
    ensures 0 <= p.slot < MAX_PLAYERS && s.confirmed[p.slot] <= p.current
  {
  }

  lemma NewHistoryIs(s: Peer, p: Packet)
    requires s.Shaped() && p.frames != [] && Accepts(s, p) && !Ancient(s, p)
    ensures var st := ProcessFrom(s, p);
      NewHistory(s, p) == Corrected(s.controls[p.slot], st - s.start, p.frames[st - p.First()..])
  {
  }

  lemma OnlyPacket(buf: seq<Byte>, p: Packet)
    requires FitsWire(p) && buf == Encode(p)
    ensures forall q :: FitsWire(q) && buf == Encode(q) ==> q == p
  {
    forall q | FitsWire(q) && buf == Encode(q)
      ensures q == p
    {
      EncodeInjective(p, q);
    }
  }

  /** The fields of p are found where the reader looks for them. */
  ghost predicate Carries(buf: seq<Byte>, p: Packet) {
    && |buf| >= 17 && buf[|buf| - 1] == 0
    && buf[0] == p.slot
    && DecodeInt32(buf[1..5]) == p.current
    && DecodeInt32(buf[5..9]) == p.checksum
    && DecodeInt32(buf[9..13]) == p.ack
    && DecodeInt32(buf[13..17]) == |p.frames|
    && buf[17..] == EncodeFrames(p.frames)
    && (p.frames == [] ==> |buf| == 17)
  }

  /** Where the C string that starts at pos ends. */
  method FindNul(buf: seq<Byte>, pos: nat) returns (end: nat)
    requires pos < |buf| && buf[|buf| - 1] == 0
    ensures pos <= end < |buf| && buf[end] == 0
    ensures forall i :: pos <= i < end ==> buf[i] != 0
  {
    end := pos;
    while buf[end] != 0
      invariant pos <= end < |buf|
      invariant forall i :: pos <= i < end ==> buf[i] != 0
      decreases |buf| - end
    {
      end := end + 1;
    }
  }

  /** k frames of the run fs have been put into history c from index lo on, giving cur and fi. */
  ghost predicate Progress(c: seq<Frame>, lo: int, fs: seq<Frame>, k: nat, start: int,
                           cur: seq<Frame>, invalid: int, fi: int)
  {
    && k <= |fs| && start >= 0
    && (k == 0 ==> cur == c && fi == invalid)
    && (k > 0 ==> lo >= 0 && cur == Spliced(c, lo, fs[..k]))
    && (lo >= 0 && fs != [] ==> fi == Marked(invalid, start, c, Corrected(c, lo, fs), lo, lo + k))
  }

  lemma ProgressStart(c: seq<Frame>, lo: int, fs: seq<Frame>, start: int, invalid: int)
    requires start >= 0
    ensures Progress(c, lo, fs, 0, start, c, invalid, invalid)
  {
  }

  lemma ProgressStep(c: seq<Frame>, lo: int, fs: seq<Frame>, k: nat, start: int,
                     cur: seq<Frame>, invalid: int, fi: int)
    requires Progress(c, lo, fs, k, start, cur, invalid, fi) && k < |fs| && lo >= 0
    ensures Progress(c, lo, fs, k + 1, start, Spliced(cur, lo + k, [fs[k]]), invalid,
                     if lo + k < |cur| && cur[lo + k] != fs[k] then Earliest(fi, start + lo + k) else fi)
    ensures |Spliced(cur, lo + k, [fs[k]])| >= lo + k + 1
  {
    assert fs[..k + 1] == fs[..k] + [fs[k]];
    SplicedStep(c, lo, fs[..k], fs[k]);
    MarkedStep(invalid, start, c, Corrected(c, lo, fs), lo, lo + k);
  }

  lemma ProgressEnd(buf: seq<Byte>, pos: nat, c: seq<Frame>, lo: int, fs: seq<Frame>, start: int,
                    cur: seq<Frame>, invalid: int, fi: int)
    requires Progress(c, lo, fs, |fs|, start, cur, invalid, fi) && fs != []
    requires pos <= |buf| && buf[pos..] == EncodeFrames(fs[|fs|..])
    ensures pos == |buf| && lo >= 0 && cur == Spliced(c, lo, fs)
    ensures fi == Marked(invalid, start, c, Corrected(c, lo, fs), lo, lo + |fs|)
  {
    assert fs[..|fs|] == fs;
    assert |buf[pos..]| == 0;
  }

  /** From one byte to the next NUL but one is a frame. */
  lemma OneFrame(buf: seq<Byte>, pos: nat, end: nat)
    requires pos < end < |buf| && buf[end] == 0 && forall i :: pos < i < end ==> buf[i] != 0
    ensures buf[pos..end + 1] == EncodeFrame(Frame(buf[pos], buf[pos + 1..end]))
  {
  }

  /** A run of at least one frame takes at least two bytes. */
  lemma FrameThere(buf: seq<Byte>, pos: nat, fs: seq<Frame>)
    requires pos <= |buf| && buf[pos..] == EncodeFrames(fs) && fs != []
    ensures pos + 2 <= |buf|
  {
    assert |EncodeFrame(fs[0])| >= 2;
  }

  /** A frame read where a run of frames begins is the first of the run, and the rest follows. */
  lemma NextFrame(buf: seq<Byte>, pos: nat, f: Frame, next: nat, fs: seq<Frame>)
    requires pos <= next <= |buf|
    requires buf[pos..next] == EncodeFrame(f) && buf[pos..] == EncodeFrames(fs)
    ensures fs != [] && f == fs[0] && buf[next..] == EncodeFrames(fs[1..])
  {
    assert buf[pos..] == EncodeFrame(f) + buf[next..];
    FrameInjective(f, buf[next..], fs[0], EncodeFrames(fs[1..]));
  }
}
