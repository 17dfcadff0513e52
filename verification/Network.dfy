/**
 * Up to eight peers over a network that may lose, repeat and reorder packets. Whatever was ever written
 * stays in `sent`, and any of it may reach anybody at any time, or never.
 */
module Network {
  import opened Wire
  import opened Peers
  import opened Rollback

  type PeerState = s: Peer | s.Shaped()
    witness Peer(0, 0, 0, 0, 0, seq(MAX_PLAYERS, _ => []), seq(MAX_PLAYERS, _ => 0), seq(MAX_PLAYERS, _ => 0), 0, map[])

  datatype Net = Net(
    first: int,                    // the cycle all peers start from
    peers: seq<PeerState>,         // the peer at index i plays slot i
    entered: seq<seq<Frame>>,      // what each player really entered, from `first` on
    heard: seq<seq<bool>>,         // heard[i][j]: i has processed a packet of j's
    sent: set<Packet>
  ) {

    ghost predicate Formed() {
      && 0 <= first && |peers| <= MAX_PLAYERS && |entered| == |heard| == |peers|
      && (forall i :: 0 <= i < |peers| ==> |heard[i]| == |peers|)
      && (forall i :: 0 <= i < |peers| ==> peers[i].nplayers == |peers| && peers[i].local == i)
      && (forall p :: p in sent ==> 0 <= p.slot < |peers| && p.frames != [])
    }
  }

  datatype Action =
    | Read(i: nat, frame: Frame)
    | Write(i: nat)
    | Deliver(i: nat, packet: Packet)
    | MarkValid(i: nat)
    | SetChecksums(i: nat, table: map<int, Int32>)

  ghost predicate Init(net: Net) {
    && net.Formed()
    && net.sent == {}
    && forall i :: 0 <= i < |net.peers| ==> StartsFresh(net, i)
  }

  ghost predicate StartsFresh(net: Net, i: nat)
    requires net.Formed() && i < |net.peers|
  {
    && net.entered[i] == []
    && net.heard[i] == seq(|net.peers|, _ => false)
    && net.peers[i] == NewLevel(net.peers[i], net.first, |net.peers|, i)
  }

  /** A packet is only written by a peer that has read at least one frame of its own. */
  ghost predicate Enabled(net: Net, a: Action) {
    && net.Formed() && 0 <= a.i < |net.peers|
    && (a.Write? ==> net.entered[a.i] != [] && PacketOf(net.peers[a.i]).frames != [])
    && (a.Deliver? ==> a.packet in net.sent)
  }

  ghost function Next(net: Net, a: Action): (next: Net)
    requires Enabled(net, a)
    ensures next.Formed() && |next.peers| == |net.peers| && next.first == net.first
  {
    var s := net.peers[a.i];
    match a
    case Read(i, f) =>
      ReadEffects(s, f);
      net.(peers := net.peers[i := ReadLocal(s, f)], entered := net.entered[i := net.entered[i] + [f]])
    case Write(i) => net.(peers := net.peers[i := AfterWrite(s)], sent := net.sent + {PacketOf(s)})
    case Deliver(i, p) =>
      var heard := if Accepts(s, p) && !Ancient(s, p) then net.heard[i][p.slot := true] else net.heard[i];
      net.(peers := net.peers[i := Receive(s, p)], heard := net.heard[i := heard])
    case MarkValid(i) => net.(peers := net.peers[i := MarkedValid(s)])
    case SetChecksums(i, t) => net.(peers := net.peers[i := s.(checksums := t)])
  }

  // ---- What every step keeps, whatever is lost, late or trimmed ----

  /** A peer's own history is the recent part of what it entered. */
  ghost predicate Own(net: Net, i: nat)
    requires net.Formed() && i < |net.peers|
  {
    var s, mine := net.peers[i], net.entered[i];
    && net.first <= s.start && s.End() == net.first + |mine|
    && (mine != [] ==> s.start < s.End())
    && s.confirmed[i] == |mine|
    && forall c :: s.start <= c < s.End() ==> TruthAt(s.controls[i], s.start, net.first, mine, c)
  }

  /** What i has confirmed of j was entered by j. */
  ghost predicate Knows(net: Net, i: nat, j: nat)
    requires net.Formed() && i < |net.peers| && j < |net.peers|
  {
    var s := net.peers[i];
    && 0 <= s.acked[j]
    && if net.heard[i][j] then net.first <= s.confirmed[j] < net.first + |net.entered[j]| else s.confirmed[j] == 0
  }

  /** i does not believe that j holds more of i's input than it does. */
  ghost predicate AckOk(net: Net, i: nat, j: nat)
    requires net.Formed() && i < |net.peers| && j < |net.peers|
  {
    net.peers[i].acked[j] <= net.peers[j].confirmed[i]
  }

  /** A history that starts at cycle `from` has for cycle c what was entered then, from cycle `first` on. */
  ghost predicate TruthAt(frames: seq<Frame>, from: int, first: int, entered: seq<Frame>, c: int) {
    0 <= c - from < |frames| && 0 <= c - first < |entered| && frames[c - from] == entered[c - first]
  }

  /** A packet carries what was entered. */
  ghost predicate Truthful(p: Packet, first: int, entered: seq<Frame>) {
    forall c :: p.First() <= c <= p.current ==> TruthAt(p.frames, p.First(), first, entered, c)
  }

  /** A packet says what its sender entered, and acknowledges no more than its sender holds. */
  ghost predicate PacketOk(net: Net, p: Packet)
    requires net.Formed() && 0 <= p.slot < |net.peers|
  {
    && net.first <= p.First() && p.current < net.first + |net.entered[p.slot]|
    && Truthful(p, net.first, net.entered[p.slot])
    && -0x8000_0000 <= p.checksum < 0x8000_0000 && 0 <= p.ack
    && forall j :: 0 <= j < |net.peers| ==> p.ack <= net.peers[p.slot].confirmed[j]
  }

  ghost predicate Inv(net: Net) {
    && net.Formed()
    && (forall i :: 0 <= i < |net.peers| ==> Own(net, i))
    && (forall i, j :: 0 <= i < |net.peers| && 0 <= j < |net.peers| && i != j ==> Knows(net, i, j))
    && (forall i, j :: 0 <= i < |net.peers| && 0 <= j < |net.peers| && i != j ==> AckOk(net, i, j))
    && (forall p :: p in net.sent ==> PacketOk(net, p))
  }

  lemma InitInv(net: Net)
    requires Init(net)
    ensures Inv(net)
  {
    forall i | 0 <= i < |net.peers|
      ensures Own(net, i)
      ensures forall j :: 0 <= j < |net.peers| ==> net.peers[i].acked[j] == net.peers[i].confirmed[j] == 0 && !net.heard[i][j]
    {
      assert StartsFresh(net, i);
    }
  }

  /** Confirmed cycles never go back. */
  ghost predicate Grows(s: PeerState, r: PeerState) {
    s.start <= r.start && forall j :: 0 <= j < MAX_PLAYERS ==> s.confirmed[j] <= r.confirmed[j]
  }

  /** All that a step of peer i has to establish about that peer itself. */
  ghost predicate Stepped(net: Net, next: Net, i: nat)
    requires net.Formed() && next.Formed() && i < |net.peers| == |next.peers|
  {
    && Own(next, i) && Grows(net.peers[i], next.peers[i])
    && forall j :: 0 <= j < |net.peers| && j != i ==> Knows(next, i, j) && next.peers[i].acked[j] <= net.peers[j].confirmed[i]
  }

  lemma ReadStep(net: Net, i: nat, f: Frame)
    requires Inv(net) && Enabled(net, Read(i, f))
    ensures Stepped(net, Next(net, Read(i, f)), i)
  {
    hide ReadLocal;
    var s := net.peers[i];
    assert Own(net, i);
    ReadEffects(s, f);
    var next := Next(net, Read(i, f));
    ReadShrinks(s, f);
    forall c | next.peers[i].start <= c < next.peers[i].End()
      ensures TruthAt(next.peers[i].controls[i], next.peers[i].start, net.first, next.entered[i], c)
    {
      ReadAt(s, f, i, c);
      assert Retained(next.peers[i], i, c);
      assert c < s.End() ==> TruthAt(s.controls[i], s.start, net.first, net.entered[i], c);
    }
    forall j | 0 <= j < |net.peers| && j != i
      ensures Knows(next, i, j) && next.peers[i].acked[j] <= net.peers[j].confirmed[i]
    {
      assert Knows(net, i, j) && AckOk(net, i, j);
    }
  }

  /** However small the limit, the frame just read is kept. */
  lemma ReadShrinks(s: PeerState, f: Frame)
    requires s.local < s.nplayers
    ensures ReadLocal(s, f).start < ReadLocal(s, f).End()
  {
  }

  lemma NonNegative(net: Net, i: nat)
    requires Inv(net) && i < |net.peers|
    ensures forall j :: 0 <= j < |net.peers| ==> net.peers[i].confirmed[j] >= 0 && (j != i ==> net.peers[i].acked[j] >= 0)
  {
    assert Own(net, i);
    forall j | 0 <= j < |net.peers| && j != i
      ensures net.peers[i].confirmed[j] >= 0 && net.peers[i].acked[j] >= 0
    {
      assert Knows(net, i, j);
    }
  }

  lemma SmallStep(net: Net, next: Net, i: nat)
    requires Inv(net) && next.Formed() && i < |net.peers| == |next.peers|
    requires next.first == net.first && next.entered == net.entered && next.heard == net.heard
    requires next.peers == net.peers[i := next.peers[i]]
    requires var s, r := net.peers[i], next.peers[i];
      r.start == s.start && r.controls == s.controls && r.confirmed == s.confirmed && r.acked == s.acked
    ensures Stepped(net, next, i)
  {
    assert Own(net, i);
    forall j | 0 <= j < |net.peers| && j != i
      ensures Knows(next, i, j) && next.peers[i].acked[j] <= net.peers[j].confirmed[i]
    {
      assert Knows(net, i, j) && AckOk(net, i, j);
    }
  }

  lemma WriteStep(net: Net, i: nat)
    requires Inv(net) && Enabled(net, Write(i))
    ensures Stepped(net, Next(net, Write(i)), i)
    ensures PacketOk(net, PacketOf(net.peers[i]))
  {
    WrittenPacketOk(net, i);
    SmallStep(net, Next(net, Write(i)), i);
  }

  lemma WrittenPacketOk(net: Net, i: nat)
    requires Inv(net) && Enabled(net, Write(i))
    ensures PacketOk(net, PacketOf(net.peers[i]))
  {
    var s, p := net.peers[i], PacketOf(net.peers[i]);
    assert Own(net, i);
    NonNegative(net, i);
    ScanMinIsMinimum(s.confirmed, -1, s.nplayers);
    forall c | p.First() <= c <= p.current
      ensures TruthAt(p.frames, p.First(), net.first, net.entered[i], c)
    {
      assert TruthAt(s.controls[i], s.start, net.first, net.entered[i], c);
    }
  }

  /** A peer that has read a frame has one to write, so writing is always possible then. */
  lemma FramesAreWritten(net: Net, i: nat)
    requires Inv(net) && i < |net.peers| && net.entered[i] != []
    ensures FramesToWrite(net.peers[i]) > 0 && TheirHighest(net.peers[i]) < net.peers[i].End()
  {
    var s := net.peers[i];
    assert Own(net, i);
    ScanMinFound(s.acked, i, s.nplayers);
    var t := TheirHighest(s);
    if t != -1 {
      var j :| 0 <= j < s.nplayers && j != i && t == s.acked[j];
      assert AckOk(net, i, j) && Knows(net, j, i);
    }
  }

  /** None of the others has less of i's input than j has. */
  ghost predicate LacksMost(net: Net, i: nat, j: nat)
    requires net.Formed() && i < |net.peers|
  {
    j < |net.peers| && j != i && forall k :: 0 <= k < |net.peers| && k != i ==> net.peers[i].acked[j] <= net.peers[i].acked[k]
  }

  ghost predicate HeldByAll(net: Net, i: nat, c: int)
    requires net.Formed() && i < |net.peers|
  {
    && (forall k :: 0 <= k < |net.peers| ==> c <= net.peers[i].confirmed[k])
    && exists k :: 0 <= k < |net.peers| && c == net.peers[i].confirmed[k]
  }

  /**
   * The packet that is written starts with the first cycle that somebody lacks, as far as its sender knows, or with
   * the oldest that is kept; with nobody else there, it holds all that is kept. It says up to which cycle its
   * sender has everybody's input.
   */
  lemma WrittenFromFirstLacking(net: Net, i: nat) returns (lacking: nat)
    requires Inv(net) && Enabled(net, Write(i))
    ensures var s, p := net.peers[i], PacketOf(net.peers[i]);
      && HeldByAll(net, i, p.ack)
      && if |net.peers| == 1 then p.First() == s.start
         else LacksMost(net, i, lacking) && p.First() == if s.acked[lacking] > s.start then s.acked[lacking] else s.start
  {
    hide TheirHighest, OurHighest, FramesToWrite, Own, Knows, AckOk, PacketOk, HeldByAll;
    var s := net.peers[i];
    OwnEnd(net, i);
    FramesAreWritten(net, i);
    LeastConfirmed(net, i);
    LeastAck(net, i);
    lacking := 0;
    if |net.peers| > 1 {
      lacking :| LacksMost(net, i, lacking) && TheirHighest(s) == s.acked[lacking];
    }
  }

  /** The frames from there on to the last are what the packet holds, and it is sent. */
  lemma WrittenToTheEnd(net: Net, i: nat)
    requires Inv(net) && Enabled(net, Write(i))
    ensures Next(net, Write(i)).sent == net.sent + {PacketOf(net.peers[i])}
    ensures var s, p := net.peers[i], PacketOf(net.peers[i]);
      && p.slot == i && p.current == s.End() - 1 && s.start <= p.First() < s.End()
      && p.frames == s.controls[i][p.First() - s.start..]
      && p.checksum == (if p.current - 1 in s.checksums then s.checksums[p.current - 1] else 0)
  {
    hide TheirHighest, OurHighest, FramesToWrite, Own, Knows, AckOk, PacketOk;
    OwnEnd(net, i);
    FramesAreWritten(net, i);
  }

  lemma OwnEnd(net: Net, i: nat)
    requires Inv(net) && i < |net.peers| && net.entered[i] != []
    ensures 0 <= net.peers[i].start < net.peers[i].End()
  {
    assert Own(net, i);
  }

  lemma LeastConfirmed(net: Net, i: nat)
    requires Inv(net) && i < |net.peers|
    ensures HeldByAll(net, i, OurHighest(net.peers[i]))
  {
    NonNegative(net, i);
    ScanMinIsMinimum(net.peers[i].confirmed, -1, |net.peers|);
  }

  lemma LeastAck(net: Net, i: nat)
    requires Inv(net) && i < |net.peers|
    ensures if |net.peers| == 1 then TheirHighest(net.peers[i]) == -1
            else exists j: nat :: LacksMost(net, i, j) && TheirHighest(net.peers[i]) == net.peers[i].acked[j]
  {
    var s := net.peers[i];
    NonNegative(net, i);
    var known := seq(|s.acked|, k requires 0 <= k < |s.acked| => if k == i then 0 else s.acked[k]);
    ScanMinSkips(s.acked, known, i, |net.peers|);
    ScanMinIsMinimum(known, i, |net.peers|);
    if |net.peers| > 1 {
      var j :| 0 <= j < |net.peers| && j != i && TheirHighest(s) == known[j];
      forall k | 0 <= k < |net.peers| && k != i
        ensures s.acked[j] <= s.acked[k]
      {
        assert TheirHighest(s) <= known[k];
      }
      assert LacksMost(net, i, j);
    }
  }

  lemma DeliverStep(net: Net, i: nat, p: Packet)
    requires Inv(net) && Enabled(net, Deliver(i, p))
    ensures Stepped(net, Next(net, Deliver(i, p)), i)
  {
    hide Receive;
    var s, next := net.peers[i], Next(net, Deliver(i, p));
    assert PacketOk(net, p);
    ReceiveEffects(s, p);
    OwnStays(net, next, i);
    forall j | 0 <= j < |net.peers| && j != i
      ensures Knows(next, i, j) && next.peers[i].acked[j] <= net.peers[j].confirmed[i]
    {
      assert Knows(net, i, j) && AckOk(net, i, j);
    }
  }

  lemma OwnStays(net: Net, next: Net, i: nat)
    requires net.Formed() && next.Formed() && i < |net.peers| == |next.peers| && Own(net, i)
    requires next.first == net.first && next.entered[i] == net.entered[i]
    requires var s, r := net.peers[i], next.peers[i];
      r.start == s.start && r.controls[i] == s.controls[i] && r.confirmed[i] == s.confirmed[i]
    ensures Own(next, i)
  {
    var s := net.peers[i];
    forall c | s.start <= c < s.End()
      ensures TruthAt(s.controls[i], s.start, net.first, net.entered[i], c)
    {
    }
  }

  lemma TruthStays(p: Packet, first: int, entered: seq<Frame>, more: seq<Frame>)
    requires Truthful(p, first, entered) && entered <= more
    ensures Truthful(p, first, more)
  {
    forall c | p.First() <= c <= p.current
      ensures TruthAt(p.frames, p.First(), first, more, c)
    {
      assert TruthAt(p.frames, p.First(), first, entered, c);
    }
  }

  /** A step of peer i that is right about i itself is right about everybody. */
  lemma StepKeepsInv(net: Net, next: Net, i: nat)
    requires Inv(net) && next.Formed() && i < |net.peers| == |next.peers| && next.first == net.first
    requires forall j :: 0 <= j < |net.peers| && j != i ==>
      next.peers[j] == net.peers[j] && next.entered[j] == net.entered[j] && next.heard[j] == net.heard[j]
    requires net.entered[i] <= next.entered[i]
    requires Stepped(net, next, i)
    requires forall p :: p in next.sent && p !in net.sent ==> PacketOk(next, p)
    ensures Inv(next)
  {
    forall j | 0 <= j < |net.peers|
      ensures Own(next, j)
    {
      assert Own(net, j);
    }
    forall j, k | 0 <= j < |net.peers| && 0 <= k < |net.peers| && j != k
      ensures Knows(next, j, k) && AckOk(next, j, k)
    {
      assert Knows(net, j, k) && AckOk(net, j, k);
    }
    forall p | p in next.sent
      ensures PacketOk(next, p)
    {
      if p in net.sent {
        assert PacketOk(net, p);
        TruthStays(p, net.first, net.entered[p.slot], next.entered[p.slot]);
      }
    }
  }

  lemma NextInv(net: Net, a: Action)
    requires Inv(net) && Enabled(net, a)
    ensures Inv(Next(net, a))
  {
    var next := Next(net, a);
    match a {
      case Read(i, f) => ReadStep(net, i, f);
      case Write(i) => WriteStep(net, i);
      case Deliver(i, p) => DeliverStep(net, i, p);
      case MarkValid(i) => SmallStep(net, next, i);
      case SetChecksums(i, t) => SmallStep(net, next, i);
    }
    hide Own, Knows, AckOk, PacketOk, Stepped;
    StepKeepsInv(net, next, a.i);
  }

  // ---- Runs ----

  ghost predicate IsRun(states: seq<Net>, actions: seq<Action>) {
    && |states| == |actions| + 1 && Init(states[0])
    && forall k :: 0 <= k < |actions| ==> Enabled(states[k], actions[k]) && states[k + 1] == Next(states[k], actions[k])
  }

  lemma {:induction false} RunInv(states: seq<Net>, actions: seq<Action>, k: nat)
    requires IsRun(states, actions) && k < |states|
    ensures Inv(states[k])
  {
    if k == 0 {
      InitInv(states[0]);
    } else {
      RunInv(states, actions, k - 1);
      NextInv(states[k - 1], actions[k - 1]);
    }
  }

  /** In every reachable state no peer believes that another holds more of its input than that one does. */
  lemma AcksNeverAhead(states: seq<Net>, actions: seq<Action>, k: nat, s: nat, r: nat)
    requires IsRun(states, actions) && k < |states| && s < |states[k].peers| && r < |states[k].peers| && s != r
    ensures states[k].Formed()
    ensures states[k].peers[s].acked[r] <= states[k].peers[r].confirmed[s]
  {
    RunInv(states, actions, k);
    assert AckOk(states[k], s, r);
  }

  // ---- Agreement ----

  /** The next packet cannot reach back to the last cycle everybody has, as older frames were dropped. */
  ghost predicate Clipped(s: PeerState, first: int) {
    s.start != first && TheirHighest(s) < s.start
  }

  /** Slot n's frames at s are what was entered, up to the cycle s has confirmed. */
  ghost predicate Agrees(s: PeerState, n: nat, first: int, entered: seq<Frame>)
    requires n < MAX_PLAYERS
  {
    forall c :: s.start <= c <= s.confirmed[n] ==> TruthAt(s.controls[n], s.start, first, entered, c)
  }

  /**
   * The packet starts where r's memory does, or, if r has heard its sender before, right behind what r has
   * confirmed of it. A peer that has heard nothing has confirmed nothing, whatever its table says.
   */
  predicate LeavesNoGap(r: PeerState, p: Packet, heard: bool)
    requires 0 <= p.slot < MAX_PLAYERS
  {
    p.First() <= r.start || (heard && p.First() <= r.confirmed[p.slot] + 1)
  }

  /** What the sender of a packet may have entered, for all that r can know. */
  ghost predicate MayHaveEntered(r: PeerState, p: Packet, heard: bool, first: int, entered: seq<Frame>)
    requires 0 <= p.slot < MAX_PLAYERS
  {
    && Truthful(p, first, entered)
    && if heard then Agrees(r, p.slot, first, entered) else r.confirmed[p.slot] <= r.start
  }

  /** A packet that leaves no gap is enough to go on agreeing with its sender. */
  lemma ReceiveKeepsAgreement(s: PeerState, p: Packet, heard: bool, first: int, entered: seq<Frame>)
    requires p.frames != [] && Accepts(s, p) && !Ancient(s, p) && first <= s.start
    requires LeavesNoGap(s, p, heard)
    requires MayHaveEntered(s, p, heard, first, entered)
    ensures Agrees(Receive(s, p), p.slot, first, entered)
  {
    hide Receive;
    ReceiveEffects(s, p);
    var r, st := Receive(s, p), ProcessFrom(s, p);
    forall c | r.start <= c <= r.confirmed[p.slot]
      ensures TruthAt(r.controls[p.slot], r.start, first, entered, c)
    {
      ReceiveAt(s, p, c);
      assert Retained(r, p.slot, c);
      if c < st {
        assert TruthAt(s.controls[p.slot], s.start, first, entered, c);
      } else {
        assert TruthAt(p.frames, p.First(), first, entered, c);
      }
    }
  }

  /** Peers agree with everybody they have heard. */
  ghost predicate AgreeAll(net: Net)
    requires net.Formed()
  {
    forall i, j :: 0 <= i < |net.peers| && 0 <= j < |net.peers| && i != j && net.heard[i][j] ==>
      Agrees(net.peers[i], j, net.first, net.entered[j])
  }

  /** No packet under way starts later than anybody's confirmed cycle. */
  ghost predicate NoneLate(net: Net)
    requires net.Formed()
  {
    forall p, i :: p in net.sent && 0 <= i < |net.peers| && i != p.slot ==>
      p.First() <= net.first || p.First() <= net.peers[i].confirmed[p.slot]
  }

  /** If the step processes a packet, the packet leaves no gap. */
  ghost predicate GapFree(net: Net, a: Action)
    requires Enabled(net, a)
  {
    a.Deliver? ==>
      var r, p := net.peers[a.i], a.packet;
      Accepts(r, p) && !Ancient(r, p) ==> LeavesNoGap(r, p, net.heard[a.i][p.slot])
  }

  /** An unclipped packet starts where everybody has its sender's input already, so it leaves no gap. */
  lemma UnclippedLeavesNoGap(net: Net, i: nat, j: nat)
    requires Inv(net) && Enabled(net, Write(i)) && j < |net.peers| && j != i
    requires !Clipped(net.peers[i], net.first)
    ensures var p := PacketOf(net.peers[i]);
      p.First() <= net.first || p.First() <= net.peers[j].confirmed[i]
  {
    var s := net.peers[i];
    assert Own(net, i);
    NonNegative(net, i);
    FramesAreWritten(net, i);
    assert AckOk(net, i, j);
    TheirHighestIsMinimum(net, i, j);
  }

  lemma TheirHighestIsMinimum(net: Net, i: nat, j: nat)
    requires Inv(net) && i < |net.peers| && j < |net.peers| && j != i
    ensures TheirHighest(net.peers[i]) <= net.peers[i].acked[j]
  {
    NonNegative(net, i);
    var s := net.peers[i];
    var xs := s.acked[i := 0];
    ScanMinSkips(s.acked, xs, i, s.nplayers);
    ScanMinIsMinimum(xs, i, s.nplayers);
  }

  /** Trimming, new local frames and packets from others leave agreement alone. */
  lemma AgreesAfterRead(s: PeerState, f: Frame, n: nat, first: int, entered: seq<Frame>)
    requires s.local < s.nplayers && n < s.nplayers && n != s.local && Agrees(s, n, first, entered)
    ensures Agrees(ReadLocal(s, f), n, first, entered)
  {
    hide ReadLocal;
    var r := ReadLocal(s, f);
    ReadEffects(s, f);
    forall c | r.start <= c <= r.confirmed[n]
      ensures TruthAt(r.controls[n], r.start, first, entered, c)
    {
      assert TruthAt(s.controls[n], s.start, first, entered, c);
      ReadAt(s, f, n, c);
      assert Retained(r, n, c);
    }
  }

  lemma EnteringMoreAgrees(s: PeerState, n: nat, first: int, entered: seq<Frame>, more: seq<Frame>)
    requires n < MAX_PLAYERS && entered <= more && Agrees(s, n, first, entered)
    ensures Agrees(s, n, first, more)
  {
    forall c | s.start <= c <= s.confirmed[n]
      ensures TruthAt(s.controls[n], s.start, first, more, c)
    {
      assert TruthAt(s.controls[n], s.start, first, entered, c);
    }
  }

  lemma SameHistoryAgrees(s: PeerState, r: PeerState, n: nat, first: int, entered: seq<Frame>)
    requires n < MAX_PLAYERS && Agrees(s, n, first, entered)
    requires r.start == s.start && r.controls[n] == s.controls[n] && r.confirmed[n] == s.confirmed[n]
    ensures Agrees(r, n, first, entered)
  {
    forall c | r.start <= c <= r.confirmed[n]
      ensures TruthAt(r.controls[n], r.start, first, entered, c)
    {
      assert TruthAt(s.controls[n], s.start, first, entered, c);
    }
  }

  lemma NextAgrees(net: Net, a: Action, i: nat, j: nat)
    requires Inv(net) && AgreeAll(net) && Enabled(net, a) && GapFree(net, a)
    requires i < |net.peers| && j < |net.peers| && i != j && Next(net, a).heard[i][j]
    ensures Agrees(Next(net, a).peers[i], j, net.first, Next(net, a).entered[j])
  {
    hide Receive, ReadLocal;
    var s, next := net.peers[i], Next(net, a);
    assert Own(net, i) && Knows(net, i, j);
    if net.heard[i][j] {
      EnteringMoreAgrees(s, j, net.first, net.entered[j], next.entered[j]);
    }
    if a.i == i {
      match a {
        case Read(_, f) => AgreesAfterRead(s, f, j, net.first, net.entered[j]);
        case Deliver(_, p) =>
          ReceiveEffects(s, p);
          if Accepts(s, p) && !Ancient(s, p) && p.slot == j {
            assert PacketOk(net, p);
            ReceiveKeepsAgreement(s, p, net.heard[i][j], net.first, net.entered[j]);
          } else {
            SameHistoryAgrees(s, next.peers[i], j, net.first, net.entered[j]);
          }
        case _ => SameHistoryAgrees(s, next.peers[i], j, net.first, net.entered[j]);
      }
    }
  }

  lemma NextAgreeAll(net: Net, a: Action)
    requires Inv(net) && AgreeAll(net) && Enabled(net, a) && GapFree(net, a)
    ensures AgreeAll(Next(net, a))
  {
    var next := Next(net, a);
    forall i, j | 0 <= i < |net.peers| && 0 <= j < |net.peers| && i != j && next.heard[i][j]
      ensures Agrees(next.peers[i], j, next.first, next.entered[j])
    {
      NextAgrees(net, a, i, j);
    }
  }

  lemma NextNoneLate(net: Net, a: Action)
    requires Inv(net) && NoneLate(net) && Enabled(net, a)
    requires a.Write? ==> !Clipped(net.peers[a.i], net.first)
    ensures NoneLate(Next(net, a))
  {
    var next := Next(net, a);
    forall p, i | p in next.sent && 0 <= i < |net.peers| && i != p.slot
      ensures p.First() <= next.first || p.First() <= next.peers[i].confirmed[p.slot]
    {
      NextGrows(net, a, i);
      if p !in net.sent {
        UnclippedLeavesNoGap(net, a.i, i);
      }
    }
  }

  lemma NextGrows(net: Net, a: Action, i: nat)
    requires Inv(net) && Enabled(net, a) && i < |net.peers|
    ensures Grows(net.peers[i], Next(net, a).peers[i])
  {
    if a.i == i {
      match a {
        case Read(_, f) => ReadStep(net, i, f);
        case Write(_) => WriteStep(net, i);
        case Deliver(_, p) => DeliverStep(net, i, p);
        case _ =>
      }
    }
  }

  /** No packet that is processed in the run leaves a gap; what is lost or refused does not matter. */
  ghost predicate NoGaps(states: seq<Net>, actions: seq<Action>) {
    && IsRun(states, actions)
    && forall k :: 0 <= k < |actions| ==> GapFree(states[k], actions[k])
  }

  lemma {:induction false} RunAgrees(states: seq<Net>, actions: seq<Action>, k: nat)
    requires NoGaps(states, actions) && k < |states|
    ensures Inv(states[k]) && AgreeAll(states[k])
  {
    hide Next, GapFree;
    RunInv(states, actions, k);
    if k == 0 {
      NobodyHeard(states[0]);
    } else {
      RunAgrees(states, actions, k - 1);
      NextAgreeAll(states[k - 1], actions[k - 1]);
    }
  }

  lemma NobodyHeard(net: Net)
    requires Init(net)
    ensures AgreeAll(net) && NoneLate(net)
  {
    forall i | 0 <= i < |net.peers|
      ensures forall j :: 0 <= j < |net.peers| ==> !net.heard[i][j]
    {
      assert StartsFresh(net, i);
    }
  }

  /**
   * In every reachable state: once r has processed a packet of player s, each frame r still keeps for a
   * cycle it has confirmed of s is the one s entered at that cycle.
   */
  lemma Agreement(states: seq<Net>, actions: seq<Action>, k: nat, r: nat, s: nat, c: int)
    requires NoGaps(states, actions) && k < |states| && r < |states[k].peers| && s < |states[k].peers| && r != s
    requires states[k].Formed() && states[k].heard[r][s]
    requires states[k].peers[r].start <= c <= states[k].peers[r].confirmed[s]
    ensures TruthAt(states[k].peers[r].controls[s], states[k].peers[r].start, states[k].first, states[k].entered[s], c)
  {
    RunAgrees(states, actions, k);
    assert Agrees(states[k].peers[r], s, states[k].first, states[k].entered[s]);
  }

  /** Every packet of the run was written while its sender still had all that somebody lacks. */
  ghost predicate NobodyClips(states: seq<Net>, actions: seq<Action>) {
    && IsRun(states, actions)
    && forall k :: 0 <= k < |actions| && actions[k].Write? ==> !Clipped(states[k].peers[actions[k].i], states[k].first)
  }

  lemma {:induction false} NobodyClipsNoneLate(states: seq<Net>, actions: seq<Action>, k: nat)
    requires NobodyClips(states, actions) && k < |states|
    ensures Inv(states[k]) && NoneLate(states[k])
  {
    hide Next, Clipped;
    RunInv(states, actions, k);
    if k == 0 {
      NobodyHeard(states[0]);
    } else {
      NobodyClipsNoneLate(states, actions, k - 1);
      NextNoneLate(states[k - 1], actions[k - 1]);
    }
  }

  /** A packet that starts no later than anybody's confirmed cycle leaves no gap, whoever has heard its sender. */
  lemma NotLateIsGapFree(net: Net, a: Action)
    requires Inv(net) && NoneLate(net) && Enabled(net, a)
    ensures GapFree(net, a)
  {
    if a.Deliver? && Accepts(net.peers[a.i], a.packet) {
      assert Own(net, a.i) && Knows(net, a.i, a.packet.slot);
    }
  }

  /** So if no packet of a run is clipped when it is written, Agreement holds for the run, come what may of them. */
  lemma UnclippedRunsHaveNoGaps(states: seq<Net>, actions: seq<Action>)
    requires NobodyClips(states, actions)
    ensures NoGaps(states, actions)
  {
    hide Next, GapFree, Clipped;
    forall k | 0 <= k < |actions|
      ensures GapFree(states[k], actions[k])
    {
      NobodyClipsNoneLate(states, actions, k);
      NotLateIsGapFree(states[k], actions[k]);
    }
  }

  /** Any two peers hold the same frame of a third for every cycle that both keep and have confirmed. */
  lemma PeersShareOneHistory(states: seq<Net>, actions: seq<Action>, k: nat, q: nat, r: nat, s: nat, c: int)
    requires NoGaps(states, actions) && k < |states| && states[k].Formed()
    requires q < |states[k].peers| && r < |states[k].peers| && s < |states[k].peers| && q != s && r != s
    requires states[k].heard[q][s] && states[k].heard[r][s]
    requires states[k].peers[q].start <= c <= states[k].peers[q].confirmed[s]
    requires states[k].peers[r].start <= c <= states[k].peers[r].confirmed[s]
    ensures Retained(states[k].peers[q], s, c) && Retained(states[k].peers[r], s, c)
    ensures FrameAt(states[k].peers[q], s, c) == FrameAt(states[k].peers[r], s, c)
  {
    Agreement(states, actions, k, q, s, c);
    Agreement(states, actions, k, r, s, c);
  }

  // ---- When agreement is lost ----

  /**
   * A receiver that knows whom it has heard can tell whether processing a packet is safe: it goes on agreeing
   * with every input that the sender may have entered if and only if the packet leaves no gap.
   */
  lemma NoGapIsExact(s: PeerState, p: Packet, heard: bool, first: int, entered: seq<Frame>)
    requires p.frames != [] && Accepts(s, p) && !Ancient(s, p) && first <= s.start
    requires MayHaveEntered(s, p, heard, first, entered)
    ensures LeavesNoGap(s, p, heard) <==>
      forall e :: MayHaveEntered(s, p, heard, first, e) ==> Agrees(Receive(s, p), p.slot, first, e)
  {
    hide Receive;
    if LeavesNoGap(s, p, heard) {
      forall e | MayHaveEntered(s, p, heard, first, e)
        ensures Agrees(Receive(s, p), p.slot, first, e)
      {
        ReceiveKeepsAgreement(s, p, heard, first, e);
      }
    } else {
      var e := GapMisleads(s, p, heard, first, entered);
    }
  }

  /** Over a gap the receiver only guesses, and the sender may have entered something else. */
  lemma GapMisleads(s: PeerState, p: Packet, heard: bool, first: int, entered: seq<Frame>) returns (e: seq<Frame>)
    requires p.frames != [] && Accepts(s, p) && !Ancient(s, p) && first <= s.start
    requires MayHaveEntered(s, p, heard, first, entered) && !LeavesNoGap(s, p, heard)
    ensures MayHaveEntered(s, p, heard, first, e) && !Agrees(Receive(s, p), p.slot, first, e)
  {
    hide Receive;
    var r, n := Receive(s, p), p.slot;
    ReceiveEffects(s, p);
    var gap := if !heard || s.confirmed[n] < s.start then s.start else s.confirmed[n] + 1;
    ReceiveAt(s, p, gap);
    assert TruthAt(p.frames, p.First(), first, entered, p.First());
    var guess := FrameAt(r, n, gap);
    e := entered[gap - first := Frame(if guess.keys == 0 then 1 else 0, [])];
    if heard {
      forall c | s.start <= c <= s.confirmed[n]
        ensures TruthAt(s.controls[n], s.start, first, e, c)
      {
        assert TruthAt(s.controls[n], s.start, first, entered, c);
      }
    }
    forall c | p.First() <= c <= p.current
      ensures TruthAt(p.frames, p.First(), first, e, c)
    {
      assert TruthAt(p.frames, p.First(), first, entered, c);
    }
    assert gap <= r.confirmed[n] && !TruthAt(r.controls[n], r.start, first, e, gap);
  }

  /** A peer of a two player level at cycle 0, with the given limit on its history. */
  function Newcomer(local: nat, limit: int): PeerState {
    Peer(0, 2, local, 0, limit, seq(MAX_PLAYERS, _ => []), seq(MAX_PLAYERS, _ => 0), seq(MAX_PLAYERS, _ => 0), -1, map[])
  }

  lemma ScanOfTwo(xs: seq<int>, skip: int)
    requires |xs| >= 2 && (skip == -1 || skip == 0) && xs[0] >= 0 && xs[1] >= 0
    ensures ScanMin(xs, skip, 2) == if skip == 0 || xs[1] < xs[0] then xs[1] else xs[0]
  {
    assert ScanMin(xs, skip, 0) == -1;
    assert ScanMin(xs, skip, 1) == if skip == 0 then -1 else xs[0];
  }

  /** After two reads a peer with room for one frame is left with the second. */
  lemma ShortMemory(a: Frame, b: Frame) returns (q: PeerState)
    ensures q == ReadLocal(ReadLocal(Newcomer(0, 2), a), b)
    ensures q.nplayers == 2 && q.local == 0 && q.start == 1
    ensures FramesToWrite(q) == 1 && PacketOf(q) == Packet(0, 1, 0, 0, [b]) && Clipped(q, 0)
  {
    var q1 := ReadLocal(Newcomer(0, 2), a);
    assert q1.controls[0] == [a] && q1.start == 0 && q1.acked[1] == 0 && q1.confirmed[1] == 0 && q1.confirmed[0] == 1;
    q := ReadLocal(q1, b);
    assert q.controls[0] == [b] && q.start == 1 && q.acked[1] == 0 && q.confirmed[1] == 0 && q.confirmed[0] == 2;
    ScanOfTwo(q.confirmed, -1);
    ScanOfTwo(q.acked, 0);
  }

  lemma Misled(b: Frame)
    ensures var s, p := Newcomer(1, 1024), Packet(0, 1, 0, 0, [b]);
      && Accepts(s, p) && !Ancient(s, p)
      && Receive(s, p).start == 0 && Receive(s, p).confirmed[0] == 1 && Receive(s, p).controls[0] == [b, b]
  {
  }

  /**
   * The assumption of Agreement cannot be dropped. Player 0 keeps only one frame of its two; its packet reaches
   * player 1 first, who takes the second frame for the first one as well. It is the packet that leaves a gap.
   */
  lemma ClippedPacketBreaksAgreement() returns (states: seq<Net>, actions: seq<Action>)
    ensures IsRun(states, actions) && |states| == 5 && states[4].Formed() && |states[4].peers| == 2
    ensures actions[2] == Write(0) && Clipped(states[2].peers[0], 0)
    ensures actions[3].Deliver? && !GapFree(states[3], actions[3])
    ensures states[4].heard[1][0] && states[4].peers[1].start <= 0 <= states[4].peers[1].confirmed[0]
    ensures !TruthAt(states[4].peers[1].controls[0], states[4].peers[1].start, 0, states[4].entered[0], 0)
  {
    hide ReadLocal, Receive, PacketOf, FramesToWrite, TheirHighest;
    var a, b := Frame(1, []), Frame(2, []);
    var p := Packet(0, 1, 0, 0, [b]);
    var deaf := seq(2, _ => false);
    var n0 := Net(0, [Newcomer(0, 2), Newcomer(1, 1024)], [[], []], [deaf, deaf], {});
    assert StartsFresh(n0, 0) && StartsFresh(n0, 1);
    actions := [Read(0, a), Read(0, b), Write(0), Deliver(1, p)];
    var q := ShortMemory(a, b);
    Misled(b);
    var n1 := Next(n0, actions[0]);
    var n2 := Next(n1, actions[1]);
    var n3 := Next(n2, actions[2]);
    var n4 := Next(n3, actions[3]);
    states := [n0, n1, n2, n3, n4];
    assert n4.entered[0] == [a, b];
    assert FrameAt(n4.peers[1], 0, 0) == b;
  }

  // ---- The wire ----

  /** Runs shorter than 2^31 cycles only ever send packets that fit the wire, and so can be read back. */
  lemma SentPacketsFitTheWire(states: seq<Net>, actions: seq<Action>, k: nat, p: Packet)
    requires IsRun(states, actions) && k < |states| && p in states[k].sent
    requires forall i :: 0 <= i < |states[k].peers| && i < |states[k].entered| ==>
      states[k].first + |states[k].entered[i]| <= 0x7fff_ffff
    ensures FitsWire(p)
  {
    RunInv(states, actions, k);
    var net := states[k];
    assert PacketOk(net, p);
    assert Own(net, p.slot);
  }
}
