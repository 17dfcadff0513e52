/**
 * What a peer may rely on when it goes back in time: every guess that turned out wrong is at or after
 * the cycle it is told to replay from, and dropping old history changes nothing that is still kept.
 */
module Rollback {
  import opened Common
  import opened Wire
  import opened Peers

  /** One past the last cycle for which player n has a frame. */
  function EndOf(s: Peer, n: nat): int
    requires s.Shaped() && n < MAX_PLAYERS
  {
    s.start + |s.controls[n]|
  }

  /** Nothing is known of player n past the confirmed cycle, so all frames from there on are one guess. */
  ghost predicate Guessing(s: Peer, n: nat)
    requires s.Shaped() && n < MAX_PLAYERS
  {
    forall c :: Retained(s, n, c) && c >= s.confirmed[n] ==> FrameAt(s, n, c) == LastFrame(s.controls[n])
  }

  ghost predicate GuessingAll(s: Peer) {
    s.Shaped() && forall n :: 0 <= n < s.nplayers && n != s.local ==> Guessing(s, n)
  }

  /** The frame of player n for cycle c is kept in both states, and is not the same. */
  ghost predicate ChangedAt(base: Peer, s: Peer, n: nat, c: int)
    requires base.Shaped() && s.Shaped() && n < MAX_PLAYERS
  {
    Retained(base, n, c) && Retained(s, n, c) && FrameAt(base, n, c) != FrameAt(s, n, c)
  }

  /** The game is told to replay from cycle c or earlier. */
  predicate ReplaysFrom(s: Peer, c: int) {
    s.firstInvalid != -1 && s.firstInvalid <= c
  }

  /** Between base and s, a frame kept in both has only changed where s says it is to be replayed. */
  ghost predicate Covered(base: Peer, s: Peer)
    requires base.Shaped() && s.Shaped()
  {
    && base.start <= s.start && base.nplayers == s.nplayers
    && (forall n :: 0 <= n < s.nplayers ==> EndOf(base, n) <= EndOf(s, n))
    && (forall n, c :: 0 <= n < s.nplayers && ChangedAt(base, s, n, c) ==> ReplaysFrom(s, c))
  }

  // ---- Local reads ----

  /** What a local read leaves of the bookkeeping. */
  lemma ReadEffects(s: Peer, f: Frame)
    requires s.Shaped() && s.local < s.nplayers
    ensures var r := ReadLocal(s, f);
      && r.nplayers == s.nplayers && r.local == s.local && r.firstInvalid == s.firstInvalid && r.acked == s.acked
      && r.confirmed == s.confirmed[s.local := s.confirmed[s.local] + 1]
      && s.start <= r.start <= s.End() && r.End() == s.End() + 1
  {
  }

  /** What a local read makes of the history of player n, seen at cycle c. */
  lemma ReadAt(s: Peer, f: Frame, n: nat, c: int)
    requires s.Shaped() && s.local < s.nplayers && n < s.nplayers
    ensures var r := ReadLocal(s, f);
      && EndOf(r, n) == (if n == s.local || EndOf(s, n) < s.End() + 1 then s.End() + 1 else EndOf(s, n))
      && (n != s.local ==> LastFrame(r.controls[n]) == LastFrame(s.controls[n]))
      && (Retained(r, n, c) ==>
            FrameAt(r, n, c) == (if c < EndOf(s, n) then s.controls[n][c - s.start]
                                 else if n == s.local then f else LastFrame(s.controls[n])))
  {
    var t := Extended(s, f);
    assert t.controls[n] == if n == s.local then s.controls[n] + [f] else Predicted(s.controls[n], |s.controls[s.local]| + 1);
    assert |t.controls[n]| >= |t.controls[s.local]| == |s.controls[s.local]| + 1;
  }

  /** Reading local input never changes a frame that is kept, of any player. */
  lemma ReadKeepsFrames(s: Peer, f: Frame, n: nat, c: int)
    requires s.Shaped() && n < s.nplayers
    ensures var r := ReadLocal(s, f);
      && s.start <= r.start
      && (Retained(s, n, c) && c >= r.start ==> Retained(r, n, c) && FrameAt(r, n, c) == FrameAt(s, n, c))
  {
    hide ReadLocal;
    if s.local < s.nplayers {
      ReadEffects(s, f);
      ReadAt(s, f, n, c);
    } else {
      ReadNothing(s, f);
    }
  }

  lemma ReadNothing(s: Peer, f: Frame)
    requires s.Shaped() && s.local >= s.nplayers
    ensures ReadLocal(s, f) == s
  {
  }

  lemma ReadKeepsGuessing(s: Peer, f: Frame)
    requires GuessingAll(s) && s.local < s.nplayers
    ensures GuessingAll(ReadLocal(s, f))
  {
    hide ReadLocal;
    var r := ReadLocal(s, f);
    ReadEffects(s, f);
    forall n, c | 0 <= n < s.nplayers && n != s.local && Retained(r, n, c) && c >= r.confirmed[n]
      ensures FrameAt(r, n, c) == LastFrame(r.controls[n])
    {
      ReadAt(s, f, n, c);
      assert Guessing(s, n);
      if c < EndOf(s, n) {
        assert Retained(s, n, c) && FrameAt(s, n, c) == LastFrame(s.controls[n]);
      }
    }
  }

  /**
   * Trimming changes what `get_controlStatus` answers for no player and no cycle that is kept, and
   * every player has more frames than are dropped.
   */
  lemma TrimmingIsInvisible(s: Peer, f: Frame, player: nat, cycle: int)
    requires s.Shaped() && s.local < s.nplayers && player < s.nplayers
    ensures var t := Extended(s, f); var r := Trimmed(t);
      && r == ReadLocal(s, f)
      && 0 <= r.start - t.start < |t.controls[player]|
      && (StatusIndex(r, cycle) < |r.controls[player]| <==> StatusIndex(t, cycle) < |t.controls[player]|)
      && (StatusIndex(t, cycle) < |t.controls[player]| ==>
            ControlStatus(r, cycle, player) ==
              if StatusIndex(r, cycle) < 0 then Released else ControlStatus(t, cycle, player))
  {
  }

  /** Reading ahead to a cycle records exactly what was held down, however often history is dropped on the way. */
  lemma {:induction false} ReadManyRecords(s: Peer, input: int -> Frame, n: nat)
    requires s.Shaped() && s.local < s.nplayers
    ensures var r := ReadMany(s, input, n);
      && r.local == s.local && r.nplayers == s.nplayers && r.End() == s.End() + n && s.start <= r.start
      && (forall c :: Retained(r, s.local, c) && c >= s.End() ==> FrameAt(r, s.local, c) == input(c))
      && (forall c :: Retained(r, s.local, c) && c < s.End() ==>
            Retained(s, s.local, c) && FrameAt(r, s.local, c) == FrameAt(s, s.local, c))
  {
    hide ReadLocal;
    if n > 0 {
      ReadManyRecords(s, input, n - 1);
      var t := ReadMany(s, input, n - 1);
      var r := ReadLocal(t, input(t.End()));
      ReadEffects(t, input(t.End()));
      forall c | Retained(r, s.local, c)
        ensures if c >= s.End() then FrameAt(r, s.local, c) == input(c)
                else Retained(s, s.local, c) && FrameAt(r, s.local, c) == FrameAt(s, s.local, c)
      {
        ReadAt(t, input(t.End()), s.local, c);
        assert c == t.End() || (Retained(t, s.local, c) && FrameAt(r, s.local, c) == FrameAt(t, s.local, c));
      }
    }
  }

  /** A history that comes to the limit loses the older half, and starts later by as much; the rest stays. */
  lemma ReadLength(s: Peer, f: Frame)
    requires s.Shaped() && s.local < s.nplayers
    ensures var r, length := ReadLocal(s, f), |s.controls[s.local]| + 1;
      var dropped := if 0 <= s.maxHistory <= length then length / 2 else 0;
      r.start == s.start + dropped && r.controls[s.local] == (s.controls[s.local] + [f])[dropped..]
  {
  }

  // ---- Going back ----

  /** Taking frames back leaves the earlier ones as they were, and those of the others. */
  lemma RewoundKeeps(s: Peer, end: nat, n: nat, c: int)
    requires s.Shaped() && s.local < s.nplayers && end <= s.End() && n < MAX_PLAYERS
    ensures var r := Rewound(s, end);
      && (n != s.local ==> r.controls[n] == s.controls[n] && r.confirmed[n] == s.confirmed[n])
      && (Retained(r, s.local, c) <==> Retained(s, s.local, c) && c < end)
      && (Retained(r, s.local, c) ==> FrameAt(r, s.local, c) == FrameAt(s, s.local, c))
      && r.confirmed[s.local] - |r.controls[s.local]| == s.confirmed[s.local] - |s.controls[s.local]|
  {
  }

  // ---- What the game is told ----

  /** The keys of a frame in which the keys with a flag are held down. */
  function KeysDown(b: seq<bool>): (keys: Byte)
    requires |b| == NUM_CONTROLS
  {
    One(b[0]) + 2 * One(b[1]) + 4 * One(b[2]) + 8 * One(b[3]) + 16 * One(b[4]) + 32 * One(b[5]) + 64 * One(b[6])
  }

  /** Player n's frame for cycle c is what the game is told `delay` cycles after the next. */
  lemma StatusIsFrame(s: Peer, n: nat, c: int, b: seq<bool>)
    requires s.Shaped() && n < MAX_PLAYERS && Retained(s, n, c)
    requires |b| == NUM_CONTROLS && FrameAt(s, n, c).keys == KeysDown(b)
    ensures ControlStatus(s, c + 1 + s.delay, n) == Held(b, FrameAt(s, n, c).user)
  {
    hide KeyBit;
    BitsOfKeys(b);
  }

  lemma BitsOfKeys(b: seq<bool>)
    requires |b| == NUM_CONTROLS
    ensures seq(NUM_CONTROLS, n requires 0 <= n < NUM_CONTROLS => KeyBit(KeysDown(b), n)) == b
  {
    forall n: nat | n < NUM_CONTROLS
      ensures KeyBit(KeysDown(b), n) == b[n]
    {
      BitOfKeys(b, n);
    }
  }

  lemma BitOfKeys(b: seq<bool>, n: nat)
    requires |b| == NUM_CONTROLS && n < NUM_CONTROLS
    ensures KeyBit(KeysDown(b), n) == b[n]
  {
    assert FromBit(b, 4) == One(b[4]) + 2 * One(b[5]) + 4 * One(b[6]) by {
      assert FromBit(b, 6) == One(b[6]);
    }
    assert FromBit(b, 2) == One(b[2]) + 2 * One(b[3]) + 4 * FromBit(b, 4);
    assert FromBit(b, 0) == KeysDown(b);
    BitsFrom(b, 0, n);
  }

  /** The keys from key i on, as a number of their own. */
  function FromBit(b: seq<bool>, i: nat): nat
    requires i <= |b|
    decreases |b| - i
  {
    if i == |b| then 0 else One(b[i]) + 2 * FromBit(b, i + 1)
  }

  lemma {:induction false} BitsFrom(b: seq<bool>, i: nat, n: nat)
    requires i + n < |b|
    ensures KeyBit(FromBit(b, i), n) == b[i + n]
    decreases n
  {
    if n > 0 {
      BitsFrom(b, i + 1, n - 1);
    }
  }

  /** Before the history begins no key is held down. */
  lemma NothingHeldBefore(s: Peer, n: nat, cycle: int)
    requires s.Shaped() && n < MAX_PLAYERS && cycle <= s.start + s.delay
    ensures ControlStatus(s, cycle, n) == Released
  {
  }

  /**
   * What was held down when a local frame was read is what the game is told for the player `delay` cycles after the
   * next, whatever has been read and received since, as long as the frame is kept.
   */
  lemma LocalInputComesBack(s: Peer, f: Frame, b: seq<bool>, es: seq<Event>)
    requires s.Shaped() && s.local < s.nplayers && WellFormed(es) && |b| == NUM_CONTROLS && f.keys == KeysDown(b)
    ensures var r, c := Run(ReadLocal(s, f), es), s.End();
      && r.delay == s.delay
      && (Retained(r, s.local, c) ==> ControlStatus(r, c + 1 + s.delay, s.local) == Held(b, f.user))
  {
    hide Run, ReadLocal;
    var t, c := ReadLocal(s, f), s.End();
    ReadEffects(s, f);
    ReadAt(s, f, s.local, c);
    DelayKept(s, f);
    RunKeepsLocal(t, es, c);
    if Retained(Run(t, es), s.local, c) {
      StatusIsFrame(Run(t, es), s.local, c, b);
    }
  }

  /** No run changes a local frame that it keeps, nor the delay. */
  lemma {:induction false} RunKeepsLocal(s: Peer, es: seq<Event>, c: int)
    requires s.Shaped() && s.local < s.nplayers && WellFormed(es)
    ensures var r := Run(s, es);
      && r.local == s.local && r.nplayers == s.nplayers && r.delay == s.delay && s.start <= r.start && s.End() <= r.End()
      && (Retained(r, s.local, c) && c < s.End() ==> Retained(s, s.local, c) && FrameAt(r, s.local, c) == FrameAt(s, s.local, c))
    decreases |es|
  {
    hide ReadLocal, Receive;
    if es != [] {
      var t := Run(s, es[..|es| - 1]);
      RunKeepsLocal(s, es[..|es| - 1], c);
      match es[|es| - 1]
      case Local(f) =>
        ReadEffects(t, f);
        ReadAt(t, f, s.local, c);
        DelayKept(t, f);
      case Incoming(p) =>
        ReceiveEffects(t, p);
        ReceiveKeepsLocal(t, p);
    }
  }

  lemma DelayKept(s: Peer, f: Frame)
    requires s.Shaped()
    ensures ReadLocal(s, f).delay == s.delay
  {
  }

  lemma ReceiveKeepsLocal(s: Peer, p: Packet)
    requires s.Shaped() && p.frames != [] && s.local < s.nplayers
    ensures Receive(s, p).delay == s.delay && Receive(s, p).controls[s.local] == s.controls[s.local]
  {
  }

  // ---- Packets ----

  /** What a packet leaves of the bookkeeping and of the histories of other slots. */
  lemma ReceiveEffects(s: Peer, p: Packet)
    requires s.Shaped() && p.frames != []
    ensures var r := Receive(s, p);
      && r.start == s.start && r.local == s.local && r.nplayers == s.nplayers
      && (forall n :: 0 <= n < MAX_PLAYERS && n != p.slot ==> r.controls[n] == s.controls[n])
      && r.acked == (if Accepts(s, p) && p.ack > s.acked[p.slot] then s.acked[p.slot := p.ack] else s.acked)
      && (if Accepts(s, p) && !Ancient(s, p) then r.confirmed == s.confirmed[p.slot := p.current]
          else r.confirmed == s.confirmed && r.controls == s.controls && r.firstInvalid == s.firstInvalid)
  {
  }

  /**
   * A packet is processed just if it is another player's, not older than what is confirmed of that one, and if what
   * is kept reaches back to the first of its frames or to what is confirmed. Then its last cycle is confirmed.
   */
  lemma ProcessedExactly(s: Peer, p: Packet)
    requires s.Shaped() && p.frames != []
    ensures Processed(s, p) <==>
      && 0 <= p.slot < s.nplayers && p.slot != s.local && p.current >= s.confirmed[p.slot]
      && (p.First() >= s.start || s.confirmed[p.slot] >= s.start)
    ensures Processed(s, p) ==> Receive(s, p).confirmed == s.confirmed[p.slot := p.current]
  {
  }

  /** What a packet that is processed makes of the history of its slot, seen at cycle c. */
  lemma ReceiveAt(s: Peer, p: Packet, c: int)
    requires s.Shaped() && p.frames != [] && Accepts(s, p) && !Ancient(s, p)
    ensures var r, known := Receive(s, p), s.confirmed[p.slot];
      var st := if p.First() < known then known else p.First();
      && EndOf(r, p.slot) == (if EndOf(s, p.slot) < p.current + 1 then p.current + 1 else EndOf(s, p.slot))
      && (Retained(r, p.slot, c) ==>
            FrameAt(r, p.slot, c) == (if c > p.current then p.frames[|p.frames| - 1]
                                      else if c >= st then p.frames[c - p.First()]
                                      else if c < EndOf(s, p.slot) then s.controls[p.slot][c - s.start]
                                      else p.frames[st - p.First()]))
      && LastFrame(r.controls[p.slot]) == p.frames[|p.frames| - 1]
  {
  }

  /** The mark a packet makes is the least cycle received whose frame was another one before. */
  lemma ReceiveMark(s: Peer, p: Packet) returns (d: int)
    requires s.Shaped() && p.frames != [] && Accepts(s, p) && !Ancient(s, p)
    ensures var r, st := Receive(s, p), ProcessFrom(s, p);
      && st <= d <= p.current + 1
      && r.firstInvalid == (if d <= p.current then Earliest(s.firstInvalid, d) else s.firstInvalid)
      && (forall c :: c < d ==> !ChangedAt(s, r, p.slot, c))
      && (d <= p.current ==> ChangedAt(s, r, p.slot, d))
  {
    var r, st := Receive(s, p), ProcessFrom(s, p);
    d := s.start + FirstDifference(s.controls[p.slot], NewHistory(s, p), st - s.start, p.current + 1 - s.start);
    forall c | c < d
      ensures !ChangedAt(s, r, p.slot, c)
    {
      if c < st {
        ReceiveAt(s, p, c);
      }
    }
  }

  lemma ReceiveKeepsGuessing(s: Peer, p: Packet)
    requires GuessingAll(s) && p.frames != []
    ensures GuessingAll(Receive(s, p))
  {
    hide Receive;
    ReceiveEffects(s, p);
    var r := Receive(s, p);
    forall n, c | 0 <= n < s.nplayers && n != s.local && Retained(r, n, c) && c >= r.confirmed[n]
      ensures FrameAt(r, n, c) == LastFrame(r.controls[n])
    {
      assert Guessing(s, n);
      if Accepts(s, p) && !Ancient(s, p) && n == p.slot {
        ReceiveAt(s, p, c);
      } else {
        assert Retained(s, n, c);
      }
    }
  }

  /**
   * A packet marks exactly what it changes: a changed frame is at or after the marked cycle, and a newly
   * marked cycle is one whose frame changed. That the carried-on tail needs no mark of its own rests on Guessing.
   */
  lemma ReceiveMarksItsChanges(s: Peer, p: Packet, n: nat, c: int)
    requires GuessingAll(s) && p.frames != [] && n < s.nplayers
    ensures var r := Receive(s, p);
      && (ChangedAt(s, r, n, c) ==> ReplaysFrom(r, c))
      && (ReplaysFrom(s, c) ==> ReplaysFrom(r, c))
      && (r.firstInvalid != s.firstInvalid ==>
            0 <= p.slot < s.nplayers && ChangedAt(s, r, p.slot, r.firstInvalid))
      && (Retained(s, n, c) ==> Retained(r, n, c)) && EndOf(s, n) <= EndOf(r, n)
  {
    hide Receive;
    ReceiveEffects(s, p);
    if Accepts(s, p) && !Ancient(s, p) {
      var d := ReceiveMark(s, p);
      ReceiveAt(s, p, c);
      if n == p.slot && ChangedAt(s, Receive(s, p), n, c) && c > p.current {
        assert Guessing(s, n);
        assert Retained(s, n, p.current) && FrameAt(s, n, c) == FrameAt(s, n, p.current);
        ReceiveAt(s, p, p.current);
        assert ChangedAt(s, Receive(s, p), n, p.current);
      }
    }
  }

  // ---- Runs ----

  datatype Event = Local(frame: Frame) | Incoming(packet: Packet)

  ghost predicate WellFormed(es: seq<Event>) {
    forall i :: 0 <= i < |es| && es[i].Incoming? ==> es[i].packet.frames != []
  }

  function Step(s: Peer, e: Event): (r: Peer)
    requires s.Shaped() && (e.Incoming? ==> e.packet.frames != [])
    ensures r.Shaped()
  {
    match e
    case Local(f) => ReadLocal(s, f)
    case Incoming(p) => Receive(s, p)
  }

  ghost function Run(s: Peer, es: seq<Event>): (r: Peer)
    requires s.Shaped() && WellFormed(es)
    ensures r.Shaped()
    decreases |es|
  {
    if es == [] then s else Step(Run(s, es[..|es| - 1]), es[|es| - 1])
  }

  function MarkedValid(s: Peer): Peer {
    s.(firstInvalid := -1)
  }

  lemma ReadKeepsCover(base: Peer, s: Peer, f: Frame)
    requires base.Shaped() && s.Shaped() && s.local < s.nplayers && Covered(base, s)
    ensures Covered(base, ReadLocal(s, f))
  {
    hide ReadLocal;
    ReadEffects(s, f);
    var r := ReadLocal(s, f);
    forall n | 0 <= n < s.nplayers
      ensures EndOf(base, n) <= EndOf(r, n)
    {
      ReadAt(s, f, n, 0);
    }
    forall n, c | 0 <= n < s.nplayers && ChangedAt(base, r, n, c)
      ensures ReplaysFrom(r, c)
    {
      ReadKeepsFrames(s, f, n, c);
      assert EndOf(base, n) <= EndOf(s, n);
      assert ChangedAt(base, s, n, c);
    }
  }

  lemma ReceiveKeepsCover(base: Peer, s: Peer, p: Packet)
    requires base.Shaped() && GuessingAll(s) && Covered(base, s) && p.frames != []
    ensures Covered(base, Receive(s, p))
  {
    hide Receive;
    ReceiveEffects(s, p);
    var r := Receive(s, p);
    forall n | 0 <= n < s.nplayers
      ensures EndOf(base, n) <= EndOf(r, n)
    {
      ReceiveMarksItsChanges(s, p, n, 0);
    }
    forall n, c | 0 <= n < s.nplayers && ChangedAt(base, r, n, c)
      ensures ReplaysFrom(r, c)
    {
      ReceiveMarksItsChanges(s, p, n, c);
      assert EndOf(base, n) <= EndOf(s, n);
      assert ChangedAt(base, s, n, c) || ChangedAt(s, r, n, c);
    }
  }

  lemma {:induction false} RunKeepsCover(base: Peer, s: Peer, es: seq<Event>)
    requires base.Shaped() && GuessingAll(s) && s.local < s.nplayers && Covered(base, s) && WellFormed(es)
    ensures var r := Run(s, es); GuessingAll(r) && Covered(base, r) && r.local == s.local && r.nplayers == s.nplayers
    decreases |es|
  {
    hide ReadLocal, Receive, Covered;
    if es != [] {
      RunKeepsCover(base, s, es[..|es| - 1]);
      var t := Run(s, es[..|es| - 1]);
      match es[|es| - 1]
      case Local(f) =>
        ReadEffects(t, f);
        ReadKeepsGuessing(t, f);
        ReadKeepsCover(base, t, f);
      case Incoming(p) =>
        ReceiveEffects(t, p);
        ReceiveKeepsGuessing(t, p);
        ReceiveKeepsCover(base, t, p);
    }
  }

  lemma {:induction false} RunTwice(s: Peer, a: seq<Event>, b: seq<Event>)
    requires s.Shaped() && WellFormed(a) && WellFormed(b)
    ensures Run(s, a + b) == Run(Run(s, a), b)
    decreases |b|
  {
    if b == [] {
      assert a + b == a;
    } else {
      var n := |b| - 1;
      RunTwice(s, a, b[..n]);
      assert (a + b)[..|a + b| - 1] == a + b[..n];
    }
  }

  /**
   * From a new level, through any run, to the moment everything was last marked valid, on to the moment the
   * game looks at the input, and on through any further run: a frame that the game saw and that has changed is
   * never before the cycle to replay from. Frames guessed after the mark are among those seen.
   */
  lemma RollbackComplete(s: Peer, start: nat, nplayers: nat, local: nat,
                         before: seq<Event>, seen: seq<Event>, since: seq<Event>)
    requires s.Shaped() && local < nplayers <= MAX_PLAYERS
    requires WellFormed(before) && WellFormed(seen) && WellFormed(since)
    ensures var base := MarkedValid(Run(NewLevel(s, start, nplayers, local), before));
      && base.Shaped()
      && Covered(Run(base, seen), Run(base, seen + since))
  {
    hide Run;
    var level := NewLevel(s, start, nplayers, local);
    RunKeepsCover(level, level, before);
    var t := Run(level, before);
    MarkingKeepsGuessing(t);
    RunKeepsCover(MarkedValid(t), MarkedValid(t), seen);
    var mid := Run(MarkedValid(t), seen);
    RunKeepsCover(mid, mid, since);
    RunTwice(MarkedValid(t), seen, since);
  }

  lemma MarkingKeepsGuessing(s: Peer)
    requires GuessingAll(s)
    ensures GuessingAll(MarkedValid(s))
  {
    forall n, c | 0 <= n < s.nplayers && n != s.local && Retained(MarkedValid(s), n, c) && c >= s.confirmed[n]
      ensures FrameAt(MarkedValid(s), n, c) == LastFrame(s.controls[n])
    {
      assert Guessing(s, n) && Retained(s, n, c);
    }
  }
}
