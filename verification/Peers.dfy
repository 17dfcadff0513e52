/**
 * The state one peer keeps of everybody's input, and what each operation on it is meant to do.
 * Cycles are absolute; `controls[n][i]` is player n's frame for cycle `start + i`.
 */
module Peers {
  import opened Wire

  const MAX_PLAYERS := 8
  const NUM_CONTROLS := 7

  datatype Peer = Peer(
    start: int,
    nplayers: nat,
    local: nat,
    delay: int,
    maxHistory: int,
    controls: seq<seq<Frame>>,
    confirmed: seq<int>,        // for each player, the highest cycle of theirs that we have
    acked: seq<int>,            // for each player, the highest cycle of ours that they have
    firstInvalid: int,
    checksums: map<int, Int32>
  ) {

    predicate Shaped() {
      && 0 <= start
      && nplayers <= MAX_PLAYERS
      && |controls| == |confirmed| == |acked| == MAX_PLAYERS
    }

    /** One past the last cycle for which the local player has a frame. */
    function End(): int
      requires Shaped()
    {
      if local >= nplayers then 0 else start + |controls[local]|
    }
  }

  /** Player n's frame for cycle c is still kept. */
  predicate Retained(s: Peer, n: nat, c: int)
    requires s.Shaped() && n < MAX_PLAYERS
  {
    s.start <= c < s.start + |s.controls[n]|
  }

  function FrameAt(s: Peer, n: nat, c: int): Frame
    requires s.Shaped() && n < MAX_PLAYERS && Retained(s, n, c)
  {
    s.controls[n][c - s.start]
  }

  // ---- A new level ----

  function NewLevel(s: Peer, start: int, nplayers: nat, local: nat): (r: Peer)
    requires s.Shaped() && nplayers <= MAX_PLAYERS && start >= 0
    ensures r.Shaped()
  {
    s.(start := start, nplayers := nplayers, local := local,
       controls := seq(MAX_PLAYERS, _ => []),
       confirmed := seq(MAX_PLAYERS, _ => 0),
       acked := seq(MAX_PLAYERS, _ => 0))
  }

  // ---- Local input ----

  /** The history carried on to length n by repeating its last frame. */
  function Predicted(c: seq<Frame>, n: nat): (r: seq<Frame>)
    ensures |r| == if |c| < n then n else |c|
    ensures c <= r
    ensures forall i :: |c| <= i < |r| ==> r[i] == LastFrame(c)
  {
    if |c| < n then c + seq(n - |c|, _ => LastFrame(c)) else c
  }

  function LastFrame(c: seq<Frame>): Frame {
    if c == [] then NO_INPUT else c[|c| - 1]
  }

  /** The first n histories, but for the local one, carried on to the length of the local one. */
  function CarriedAlong(cs: seq<seq<Frame>>, local: nat, n: nat): (r: seq<seq<Frame>>)
    requires local < |cs|
    ensures |r| == |cs| && r[local] == cs[local]
  {
    seq(|cs|, k requires 0 <= k < |cs| =>
      if k != local && k < n then Predicted(cs[k], |cs[local]|) else cs[k])
  }

  /** The first n histories without their first `count` frames. */
  function WithoutFirst(cs: seq<seq<Frame>>, n: nat, count: nat): (r: seq<seq<Frame>>)
    requires forall k :: 0 <= k < n && k < |cs| ==> count <= |cs[k]|
    ensures |r| == |cs|
  {
    seq(|cs|, k requires 0 <= k < |cs| => if k < n then cs[k][count..] else cs[k])
  }

  /** The local frame appended and every other player carried along. */
  function Extended(s: Peer, f: Frame): (r: Peer)
    requires s.Shaped() && s.local < s.nplayers
    ensures r.Shaped()
    ensures forall n :: 0 <= n < s.nplayers ==> |r.controls[n]| >= |r.controls[s.local]|
  {
    s.(controls := CarriedAlong(s.controls[s.local := s.controls[s.local] + [f]], s.local, s.nplayers),
       confirmed := s.confirmed[s.local := s.confirmed[s.local] + 1])
  }

  /** The oldest half of the history dropped, once the local history has reached the limit. */
  function Trimmed(s: Peer): (r: Peer)
    requires s.Shaped() && s.local < s.nplayers
    requires forall n :: 0 <= n < s.nplayers ==> |s.controls[n]| >= |s.controls[s.local]|
    ensures r.Shaped()
  {
    var size := |s.controls[s.local]|;
    if 0 <= s.maxHistory <= size then
      s.(start := s.start + size / 2, controls := WithoutFirst(s.controls, s.nplayers, size / 2))
    else s
  }

  function ReadLocal(s: Peer, f: Frame): (r: Peer)
    requires s.Shaped()
    ensures r.Shaped()
  {
    if s.local >= s.nplayers then s else Trimmed(Extended(s, f))
  }

  function UnreadLocal(s: Peer): (r: Peer)
    requires s.Shaped()
    ensures r.Shaped()
  {
    if s.local >= s.nplayers || s.controls[s.local] == [] then s
    else s.(controls := s.controls[s.local := s.controls[s.local][..|s.controls[s.local]| - 1]],
            confirmed := s.confirmed[s.local := s.confirmed[s.local] - 1])
  }

  // ---- Acknowledgements ----

  /** The scan both `highest_confirmed` functions make, in which -1 stands for nothing seen yet. */
  function ScanMin(xs: seq<int>, skip: int, n: nat): int
    requires n <= |xs|
  {
    if n == 0 then -1 else
      var res := ScanMin(xs, skip, n - 1);
      if n - 1 != skip && (res == -1 || xs[n - 1] < res) then xs[n - 1] else res
  }

  /** Over non-negative entries the scan is the minimum of the entries not skipped. */
  lemma {:induction false} ScanMinIsMinimum(xs: seq<int>, skip: int, n: nat)
    requires n <= |xs|
    requires forall i :: 0 <= i < n ==> xs[i] >= 0
    ensures forall i :: 0 <= i < n && i != skip ==> ScanMin(xs, skip, n) <= xs[i]
    ensures ScanMin(xs, skip, n) == -1 <==> n == 0 || (n == 1 && skip == 0)
    ensures ScanMin(xs, skip, n) != -1 ==>
      exists i :: 0 <= i < n && i != skip && ScanMin(xs, skip, n) == xs[i]
  {
    if n > 0 {
      ScanMinIsMinimum(xs, skip, n - 1);
    }
  }

  /** The entry skipped does not matter. */
  lemma {:induction false} ScanMinSkips(xs: seq<int>, ys: seq<int>, skip: int, n: nat)
    requires n <= |xs| == |ys|
    requires forall i :: 0 <= i < n && i != skip ==> xs[i] == ys[i]
    ensures ScanMin(xs, skip, n) == ScanMin(ys, skip, n)
  {
    if n > 0 {
      ScanMinSkips(xs, ys, skip, n - 1);
    }
  }

  /** The scan finds one of the entries, or -1, whatever the entries are. */
  lemma {:induction false} ScanMinFound(xs: seq<int>, skip: int, n: nat)
    requires n <= |xs|
    ensures ScanMin(xs, skip, n) == -1 || exists i :: 0 <= i < n && i != skip && ScanMin(xs, skip, n) == xs[i]
  {
    if n > 0 {
      ScanMinFound(xs, skip, n - 1);
    }
  }

  /** The cycle up to which we hold everybody's input. */
  function OurHighest(s: Peer): int
    requires s.Shaped()
  {
    ScanMin(s.confirmed, -1, s.nplayers)
  }

  /** The cycle up to which everybody else holds our input. */
  function TheirHighest(s: Peer): int
    requires s.Shaped()
  {
    ScanMin(s.acked, s.local, s.nplayers)
  }

  // ---- Packets out ----

  function CheckOf(s: Peer, c: int): Int32 {
    if c in s.checksums then s.checksums[c] else 0
  }

  /** Looking a key up in the checksum table creates it. */
  function Touch(m: map<int, Int32>, c: int): map<int, Int32> {
    if c in m then m else m[c := 0]
  }

  /** How many frames go into the next packet. */
  function FramesToWrite(s: Peer): (n: nat)
    requires s.Shaped() && s.local < s.nplayers
    ensures n <= |s.controls[s.local]|
    ensures TheirHighest(s) <= s.End() ==>
      s.End() - n == if TheirHighest(s) > s.start then TheirHighest(s) else s.start
  {
    var n := s.End() - TheirHighest(s);
    if n < 0 || n > |s.controls[s.local]| then |s.controls[s.local]| else n
  }

  function PacketOf(s: Peer): Packet
    requires s.Shaped() && s.local < s.nplayers
  {
    var mine := s.controls[s.local];
    Packet(s.local, s.End() - 1, CheckOf(s, s.End() - 2), OurHighest(s), mine[|mine| - FramesToWrite(s)..])
  }

  function AfterWrite(s: Peer): (r: Peer)
    requires s.Shaped()
    ensures r.Shaped()
  {
    if s.local >= s.nplayers then s else s.(checksums := Touch(s.checksums, s.End() - 2))
  }

  // ---- Packets in ----

  /** History c with frames fs put in from index lo on; a gap before them is filled with the first. */
  function Spliced(c: seq<Frame>, lo: nat, fs: seq<Frame>): (r: seq<Frame>)
    requires fs != []
    ensures |r| == if |c| < lo + |fs| then lo + |fs| else |c|
  {
    seq(if |c| < lo + |fs| then lo + |fs| else |c|, i requires 0 <= i =>
      if lo <= i < lo + |fs| then fs[i - lo] else if i < |c| then c[i] else fs[0])
  }

  /** The frame at index k carried on to the end of the history. */
  function CarriedFrom(c: seq<Frame>, k: nat): (r: seq<Frame>)
    requires k < |c|
    ensures |r| == |c|
  {
    seq(|c|, i requires 0 <= i < |c| => if i <= k then c[i] else c[k])
  }

  /** History c corrected by the frames fs for the indices from lo on. */
  function Corrected(c: seq<Frame>, lo: nat, fs: seq<Frame>): (r: seq<Frame>)
    requires fs != []
    ensures |r| == if |c| < lo + |fs| then lo + |fs| else |c|
  {
    CarriedFrom(Spliced(c, lo, fs), lo + |fs| - 1)
  }

  /** The least index in [lo, hi) at which the old history had another frame than the new one, or hi. */
  function FirstDifference(a: seq<Frame>, b: seq<Frame>, lo: nat, hi: nat): (k: nat)
    requires lo <= hi <= |b|
    ensures lo <= k <= hi
    ensures forall i :: lo <= i < k && i < |a| ==> a[i] == b[i]
    ensures k < hi ==> k < |a| && a[k] != b[k]
    decreases hi - lo
  {
    if lo == hi || (lo < |a| && a[lo] != b[lo]) then lo else FirstDifference(a, b, lo + 1, hi)
  }

  lemma FirstDifferenceUnique(a: seq<Frame>, b: seq<Frame>, lo: nat, hi: nat, k: nat)
    requires lo <= k <= hi <= |b|
    requires forall i :: lo <= i < k && i < |a| ==> a[i] == b[i]
    requires k < hi ==> k < |a| && a[k] != b[k]
    ensures FirstDifference(a, b, lo, hi) == k
  {
    var d := FirstDifference(a, b, lo, hi);
    assert !(d < k) && !(k < d);
  }

  /** The packet comes from another player of the level and is not older than what we have. */
  predicate Accepts(s: Peer, p: Packet)
    requires s.Shaped()
  {
    0 <= p.slot < s.nplayers && p.slot != s.local && p.current >= s.confirmed[p.slot]
  }

  /** The first cycle the packet is processed from. */
  function ProcessFrom(s: Peer, p: Packet): int
    requires s.Shaped() && Accepts(s, p)
  {
    if p.First() < s.confirmed[p.slot] then s.confirmed[p.slot] else p.First()
  }

  /** Frames for cycles already dropped make the packet useless. */
  predicate Ancient(s: Peer, p: Packet)
    requires s.Shaped() && Accepts(s, p)
  {
    ProcessFrom(s, p) < s.start
  }

  function Acknowledged(s: Peer, p: Packet): (r: Peer)
    requires s.Shaped() && Accepts(s, p)
    ensures r.Shaped()
  {
    s.(acked := if p.ack > s.acked[p.slot] then s.acked[p.slot := p.ack] else s.acked,
       checksums := if p.checksum != 0 then Touch(s.checksums, p.current - 1) else s.checksums)
  }

  /** The history of the packet's slot after a packet that is processed. */
  function NewHistory(s: Peer, p: Packet): (r: seq<Frame>)
    requires s.Shaped() && p.frames != [] && Accepts(s, p) && !Ancient(s, p)
  {
    var st := ProcessFrom(s, p);
    Corrected(s.controls[p.slot], st - s.start, p.frames[st - p.First()..])
  }

  /** The frame at index k carried on to the end of the history, if there is one. */
  function CarriedOn(c: seq<Frame>, k: int): (r: seq<Frame>)
    ensures |r| == |c|
  {
    if 0 <= k < |c| then CarriedFrom(c, k) else c
  }

  /** The packet is read to its end; one without frames is never found to be too old. */
  predicate Processed(s: Peer, p: Packet)
    requires s.Shaped()
  {
    Accepts(s, p) && (p.frames == [] || !Ancient(s, p))
  }

  /** A packet without frames makes the reader take the frame right in front of the history. */
  predicate ReadsBefore(s: Peer, p: Packet)
    requires s.Shaped()
  {
    Accepts(s, p) && p.frames == [] && p.current == s.start - 1 && s.controls[p.slot] != []
  }

  /** Local frames read until cycle n is the last one; input(c) is what is held down at cycle c. */
  function ReadMany(s: Peer, input: int -> Frame, n: nat): (r: Peer)
    requires s.Shaped()
    ensures r.Shaped()
  {
    if n == 0 then s else
      var t := ReadMany(s, input, n - 1);
      ReadLocal(t, input(t.End()))
  }

  /** A peer whose history has just been cut to cycle 1, and a packet of cycle 0 without frames. */
  lemma FramelessReadsBefore(s: Peer, input: int -> Frame)
    requires s.Shaped() && s.maxHistory == 2
    ensures var r := ReadMany(NewLevel(s, 0, 2, 0), input, 2);
      r.start == 1 && ReadsBefore(r, Packet(1, 0, 0, 0, []))
  {
    var a := NewLevel(s, 0, 2, 0);
    assert ReadMany(a, input, 0) == a;
    var b := ReadMany(a, input, 1);
    assert b == ReadLocal(a, input(a.End()));
    assert b.start == 0 && |b.controls[0]| == 1 && b.local == 0 && b.nplayers == 2;
    var c := Extended(b, input(b.End()));
    assert |c.controls[0]| == 2 && |c.controls[1]| == 2;
    assert ReadMany(a, input, 2) == Trimmed(c);
  }

  lemma ReadAddsOneCycle(s: Peer, f: Frame)
    requires s.Shaped() && s.local < s.nplayers
    ensures var r := ReadLocal(s, f);
      r.End() == s.End() + 1 && r.local == s.local && r.nplayers == s.nplayers
  {
  }

  /** The local history cut back to end at cycle `end`, or emptied and moved there. */
  function Rewound(s: Peer, end: nat): (r: Peer)
    requires s.Shaped() && s.local < s.nplayers && end <= s.End()
    ensures r.Shaped() && r.End() == end
  {
    var keep := if s.start <= end then end - s.start else 0;
    s.(start := if s.start <= end then s.start else end,
       controls := s.controls[s.local := s.controls[s.local][..keep]],
       confirmed := s.confirmed[s.local := s.confirmed[s.local] - (|s.controls[s.local]| - keep)])
  }

  /** Rewinding frame by frame. */
  lemma RewoundStep(s: Peer, end: nat)
    requires s.Shaped() && s.local < s.nplayers && s.start <= end <= s.End()
    ensures end == s.End() ==> Rewound(s, end) == s
    ensures s.start < end ==> UnreadLocal(Rewound(s, end)) == Rewound(s, end - 1)
  {
    var r := Rewound(s, end);
    var keep := end - s.start;
    assert r.controls[s.local] == s.controls[s.local][..keep];
    if end == s.End() {
      assert s.controls[s.local][..keep] == s.controls[s.local];
      assert r.controls == s.controls && r.confirmed == s.confirmed;
    }
    if s.start < end {
      assert s.controls[s.local][..keep][..keep - 1] == s.controls[s.local][..keep - 1];
      assert UnreadLocal(r).controls == Rewound(s, end - 1).controls;
      assert UnreadLocal(r).confirmed == Rewound(s, end - 1).confirmed;
    }
  }

  /** The cycle the game has to be replayed from, given one more cycle found to be wrong. */
  function Earliest(invalid: int, c: int): int {
    if invalid == -1 || invalid > c then c else invalid
  }

  /** `invalid` after the frames at indices [lo, hi) of history a have become those of b. */
  function Marked(invalid: int, start: nat, a: seq<Frame>, b: seq<Frame>, lo: nat, hi: nat): int
    requires lo <= hi <= |b|
  {
    var d := FirstDifference(a, b, lo, hi);
    if d < hi then Earliest(invalid, start + d) else invalid
  }

  lemma MarkedStep(invalid: int, start: nat, a: seq<Frame>, b: seq<Frame>, lo: nat, hi: nat)
    requires lo <= hi < |b|
    ensures Marked(invalid, start, a, b, lo, hi + 1) ==
      var m := Marked(invalid, start, a, b, lo, hi);
      if hi < |a| && a[hi] != b[hi] then Earliest(m, start + hi) else m
  {
    var d := FirstDifference(a, b, lo, hi);
    FirstDifferenceUnique(a, b, lo, hi + 1,
      if d < hi || (hi < |a| && a[hi] != b[hi]) then d else hi + 1);
  }

  lemma SplicedStep(c: seq<Frame>, lo: nat, fs: seq<Frame>, f: Frame)
    ensures fs == [] ==> Spliced(c, lo, fs + [f]) == Spliced(c, lo, [f])
    ensures fs != [] ==> Spliced(c, lo, fs + [f]) == Spliced(Spliced(c, lo, fs), lo + |fs|, [f])
  {
    if fs == [] {
      assert fs + [f] == [f];
    }
  }

  function Receive(s: Peer, p: Packet): (r: Peer)
    requires s.Shaped() && !ReadsBefore(s, p)
    ensures r.Shaped()
  {
    if !Accepts(s, p) then s
    else if p.frames == [] then
      Acknowledged(s, p).(
        controls := s.controls[p.slot := CarriedOn(s.controls[p.slot], p.current - s.start)],
        confirmed := s.confirmed[p.slot := p.current])
    else if Ancient(s, p) then Acknowledged(s, p)
    else
      var h := NewHistory(s, p);
      var end := p.current + 1 - s.start;
      Acknowledged(s, p).(
        controls := s.controls[p.slot := h],
        confirmed := s.confirmed[p.slot := p.current],
        firstInvalid := Marked(s.firstInvalid, s.start, s.controls[p.slot], h, ProcessFrom(s, p) - s.start, end))
  }

  // ---- Looking input up ----

  datatype Status = Released | Held(keys: seq<bool>, user: seq<TextByte>)

  /** The index `get_controlStatus` looks at, negative before the start of the history. */
  function StatusIndex(s: Peer, cycle: int): int {
    cycle - 1 - s.start - s.delay
  }

  /** Bit n of the keys of a frame. */
  function KeyBit(keys: nat, n: nat): bool {
    if n == 0 then keys % 2 == 1 else KeyBit(keys / 2, n - 1)
  }

  function ControlStatus(s: Peer, cycle: int, player: nat): Status
    requires s.Shaped() && player < MAX_PLAYERS && StatusIndex(s, cycle) < |s.controls[player]|
  {
    var i := StatusIndex(s, cycle);
    if i < 0 then Released
    else
      var f := s.controls[player][i];
      Held(seq(NUM_CONTROLS, n requires 0 <= n < NUM_CONTROLS => KeyBit(f.keys, n)), f.user)
  }
}
