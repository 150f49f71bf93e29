/** The hybrid logical clock: 48 bits of wall-clock milliseconds over a 16-bit counter in one 64-bit
    word, advanced by compare-and-swap loops that any number of threads run interleaved. */
module Hlc {
  import opened Words

  const U48: nat := 0x1_0000_0000_0000
  const SHIFT: nat := 0x1_0000
  const MAX_SKEW_MS: nat := 500

  // ---- packed timestamps -------------------------------------------------------------------------

  /** x << 16 on 64-bit words: the high bits fall off. */
  function Shl16(x: nat): nat {
    x * SHIFT % U64
  }

  function FromParts(millis: nat, logical: nat): nat
    requires logical < SHIFT
  {
    millis % U48 * SHIFT + logical
  }

  function Millis(ts: nat): nat {
    ts / SHIFT
  }

  function Logical(ts: nat): nat {
    ts % SHIFT
  }

  lemma PackRoundTrip(millis: nat, logical: nat)
    requires millis < U48 && logical < SHIFT
    ensures FromParts(millis, logical) < U64
    ensures Millis(FromParts(millis, logical)) == millis && Logical(FromParts(millis, logical)) == logical
  {
  }

  /** Packed timestamps are ordered by milliseconds first, then by counter. */
  lemma PackOrder(millis: nat, logical: nat, otherMillis: nat, otherLogical: nat)
    requires millis < U48 && logical < SHIFT && otherMillis < U48 && otherLogical < SHIFT
    ensures FromParts(millis, logical) < FromParts(otherMillis, otherLogical)
            <==> millis < otherMillis || (millis == otherMillis && logical < otherLogical)
  {
    if millis < otherMillis {
      assert (millis + 1) * SHIFT <= otherMillis * SHIFT;
    } else if otherMillis < millis {
      assert (otherMillis + 1) * SHIFT <= millis * SHIFT;
    }
  }

  /** The timestamp a merge moves past: the remote one, or, if that is more than 500 ms ahead of the wall, the
      one 500 ms ahead. */
  predicate Passes(value: nat, remote: nat, wall: nat) {
    if remote / 65536 <= wall + 500 then value > remote else value > (wall + 500) * 65536
  }

  // ---- the two operations --------------------------------------------------------------------------

  function Succ(x: nat): nat {
    (x + 1) % U64
  }

  function NowCandidate(last: nat, wall: nat): nat {
    Max(Shl16(wall), Succ(last))
  }

  predicate Clamped(remote: nat, wall: nat) {
    Millis(remote) > wall + MAX_SKEW_MS
  }

  /** The remote timestamp as merged: cut back to wall + 500 ms when it is further ahead. */
  function Effective(remote: nat, wall: nat): nat {
    if Clamped(remote, wall) then FromParts(wall + MAX_SKEW_MS, 0) else remote
  }

  function MergeCandidate(last: nat, remote: nat, wall: nat): nat {
    Max(Max(Shl16(wall), Succ(last)), Succ(Effective(remote, wall)))
  }

  /** A clock whose wall time stays at or below w never needs to pass this, counters aside. */
  function Ceiling(w: nat): nat {
    (w + MAX_SKEW_MS + 1) * SHIFT
  }

  lemma CandidateBounds(last: nat, remote: nat, wall: nat, w: nat)
    requires wall <= w && Ceiling(w) < U64 && last + 1 < U64
    ensures Shl16(wall) == wall * SHIFT <= Ceiling(w)
    ensures Effective(remote, wall) < Ceiling(w)
    ensures last < NowCandidate(last, wall) <= Max(Ceiling(w), last + 1)
    ensures last < MergeCandidate(last, remote, wall) <= Max(Ceiling(w), last + 1)
    ensures Passes(MergeCandidate(last, remote, wall), remote, wall)
  {
    assert wall * SHIFT <= w * SHIFT;
    if !Clamped(remote, wall) {
      assert remote < (Millis(remote) + 1) * SHIFT;
    }
  }

  datatype Merge = Merge(now: nat, skewMs: nat, clamped: bool)

  /** The clock as one thread sees it when nobody interferes. */
  class Clock {
    var last: nat

    constructor ()
      ensures last == 0
    {
      last := 0;
    }

    method Now(wall: nat) returns (ts: nat)
      modifies this
      ensures ts == last == NowCandidate(old(last), wall)
      ensures old(last) + 1 < U64 ==> ts > old(last)
      ensures wall < U48 ==> ts >= wall * 65536
      ensures ts <= wall * 65536 || ts <= old(last) + 1
    {
      last := Max(Shl16(wall), Succ(last));
      ts := last;
    }

    method MergeRemote(remote: nat, wall: nat) returns (m: Merge)
      modifies this
      ensures m.now == last == MergeCandidate(old(last), remote, wall)
      ensures old(last) + 1 < U64 ==> m.now > old(last)
      ensures remote + 1 < U64 && wall + 500 < U48 ==> Passes(m.now, remote, wall)
      ensures wall < U48 ==> m.now >= wall * 65536
      ensures m.now <= wall * 65536 || m.now <= old(last) + 1
              || m.now <= (if remote / 65536 <= wall + 500 then remote else (wall + 500) * 65536) + 1
      ensures m.clamped <==> remote / 65536 > wall + 500
      ensures m.skewMs == if remote / 65536 >= wall then remote / 65536 - wall else wall - remote / 65536
    {
      var skew := if Millis(remote) >= wall then Millis(remote) - wall else wall - Millis(remote);
      var effective := if Clamped(remote, wall) then FromParts(wall + MAX_SKEW_MS, 0) else remote;
      last := Max(Max(Shl16(wall), Succ(last)), Succ(effective));
      m := Merge(last, skew, Clamped(remote, wall));
    }
  }

  // ---- interleaved threads ---------------------------------------------------------------------------

  datatype Call = NowCall | MergeCall(remote: nat, wall: nat)

  /** Where a thread is in its loop: outside, about to load, loaded, or about to compare and swap. */
  datatype Phase =
    | Idle
    | Trying(call: Call)
    | Loaded(seen: nat)
    | Ready(call: Call, wall: nat, seen: nat, candidate: nat)

  datatype Returned = Returned(call: Call, wall: nat, value: nat)

  datatype World = World(last: nat, phases: map<nat, Phase>, log: seq<Returned>)

  datatype Event =
    | Start(thread: nat, call: Call)
    | Load(thread: nat)
    | ReadWall(thread: nat, wall: nat)
    | Cas(thread: nat)

  function PhaseOf(s: World, t: nat): Phase {
    if t in s.phases then s.phases[t] else Idle
  }

  function Apply(s: World, e: Event): World {
    match (e, PhaseOf(s, e.thread))
    case (Start(t, call), Idle) => s.(phases := s.phases[t := Trying(call)])
    case (Load(t), Trying(NowCall)) => s.(phases := s.phases[t := Loaded(s.last)])
    case (Load(t), Trying(MergeCall(remote, wall))) =>
      s.(phases := s.phases[t := Ready(MergeCall(remote, wall), wall, s.last, MergeCandidate(s.last, remote, wall))])
    case (ReadWall(t, wall), Loaded(seen)) =>
      s.(phases := s.phases[t := Ready(NowCall, wall, seen, NowCandidate(seen, wall))])
    case (Cas(t), Ready(call, wall, seen, candidate)) =>
      if s.last == seen then World(candidate, s.phases[t := Idle], s.log + [Returned(call, wall, candidate)])
      else s.(phases := s.phases[t := Trying(call)])
    case _ => s
  }

  function Run(events: seq<Event>): World {
    if |events| == 0 then World(0, map[], []) else Apply(Run(events[..|events| - 1]), events[|events| - 1])
  }

  /** Every wall-clock reading is at most w. */
  predicate WallAtMost(e: Event, w: nat) {
    match e
    case Start(_, MergeCall(_, wall)) => wall <= w
    case ReadWall(_, wall) => wall <= w
    case _ => true
  }

  ghost predicate PhaseSound(p: Phase, last: nat, w: nat) {
    match p
    case Idle => true
    case Trying(call) => call.MergeCall? ==> call.wall <= w
    case Loaded(seen) => seen <= last
    case Ready(call, wall, seen, candidate) =>
      && seen <= last && seen < candidate <= Max(Ceiling(w), seen + 1) && candidate >= wall * SHIFT
      && (call.MergeCall? ==> call.wall <= w && Passes(candidate, call.remote, call.wall))
  }

  ghost predicate LogSound(log: seq<Returned>, last: nat) {
    && (forall i, j :: 0 <= i < j < |log| ==> log[i].value < log[j].value)
    && (forall i :: 0 <= i < |log| ==> log[i].wall * SHIFT <= log[i].value <= last)
    && (forall i :: 0 <= i < |log| && log[i].call.MergeCall? ==>
          Passes(log[i].value, log[i].call.remote, log[i].call.wall))
  }

  ghost predicate Sound(s: World, w: nat) {
    && s.last <= Ceiling(w) + |s.log|
    && (forall t :: t in s.phases ==> PhaseSound(s.phases[t], s.last, w))
    && LogSound(s.log, s.last)
  }

  lemma StepSound(s: World, e: Event, w: nat)
    requires Sound(s, w) && WallAtMost(e, w) && Ceiling(w) + |s.log| + 1 < U64
    ensures Sound(Apply(s, e), w)
    ensures |Apply(s, e).log| <= |s.log| + 1
  {
    var p := PhaseOf(s, e.thread);
    match (e, p)
    case (Load(_), Trying(MergeCall(remote, wall))) => CandidateBounds(s.last, remote, wall, w);
    case (ReadWall(_, wall), Loaded(seen)) => CandidateBounds(seen, 0, wall, w);
    case _ =>
  }

  /** The call a thread is in, if any. */
  function Pending(p: Phase): set<Call> {
    match p
    case Idle => {}
    case Trying(call) => {call}
    case Loaded(_) => {NowCall}
    case Ready(call, _, _, _) => {call}
  }

  /** A call that was started ends only by returning, with its value in the log; a swap that fails tries again. */
  lemma CallsReturn(s: World, e: Event, t: nat)
    ensures var w := Apply(s, e); var before, after := Pending(PhaseOf(s, t)), Pending(PhaseOf(w, t));
            && (before != {} && after != before ==>
                  && after == {} && e == Cas(t) && |w.log| == |s.log| + 1 && w.log[..|s.log|] == s.log
                  && before == {w.log[|s.log|].call} && w.log[|s.log|].value == w.last)
            && (before == {} && after != {} ==> e.Start? && e.thread == t && after == {e.call})
  {
  }

  /** In every interleaving, as long as the words do not overflow: returned timestamps are strictly
      increasing in the order of their swaps, hence unique; every merge returns more than the remote, or than
      500 ms past the wall if the remote is further ahead; and whatever the remotes sent, the clock stays below
      its ceiling plus one per event. */
  lemma {:induction false} ClockSafe(events: seq<Event>, w: nat)
    requires Ceiling(w) + |events| < U64
    requires forall i :: 0 <= i < |events| ==> WallAtMost(events[i], w)
    ensures Sound(Run(events), w) && |Run(events).log| <= |events|
  {
    if |events| > 0 {
      var n := |events| - 1;
      ClockSafe(events[..n], w);
      StepSound(Run(events[..n]), events[n], w);
    }
  }
}
