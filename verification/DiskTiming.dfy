/**
 How long the disk takes: seek, rotation, transfer, and the track buffer.
 */
module DiskTiming {
  import opened DiskGeometry

  const RotationTime: int := 500
  const SeekTime: int := 500

  /** Where the head was sent last, and when the track buffer began to fill. */
  datatype Head = Head(lastSector: int, bufferInit: int)

  predicate IsSector(s: int) { 0 <= s < NumSectors }

  function Distance(x: int, y: int): int { if x < y then y - x else x - y }

  function Seek(h: Head, newSector: int): int { Distance(newSector / SectorsPerTrack, h.lastSector / SectorsPerTrack) * SeekTime }

  /** From the end of the seek to the next sector boundary. */
  function Rotation(h: Head, newSector: int, now: int): int {
    var over := (now + Seek(h, newSector)) % RotationTime;
    if over > 0 then RotationTime - over else 0
  }

  function ModuloDiff(to: int, from: int): int {
    (to % SectorsPerTrack - from % SectorsPerTrack + SectorsPerTrack) % SectorsPerTrack
  }

  function TimeAfter(h: Head, newSector: int, now: int): int { now + Seek(h, newSector) + Rotation(h, newSector, now) }

  predicate Buffered(h: Head, newSector: int, writing: bool, now: int) {
    && !writing && Seek(h, newSector) == 0
    && (TimeAfter(h, newSector, now) - h.bufferInit) / RotationTime > ModuloDiff(newSector, h.bufferInit / RotationTime)
  }

  /** The latency on the ordinary path. */
  function Ordinary(h: Head, newSector: int, now: int): int {
    Seek(h, newSector) + Rotation(h, newSector, now)
    + ModuloDiff(newSector, TimeAfter(h, newSector, now) / RotationTime) * RotationTime + RotationTime
  }

  function ComputeLatency(h: Head, newSector: int, writing: bool, now: int): int {
    if Buffered(h, newSector, writing, now) then RotationTime else Ordinary(h, newSector, now)
  }

  function UpdateLast(h: Head, newSector: int, now: int): Head {
    Head(newSector, if Seek(h, newSector) != 0 then TimeAfter(h, newSector, now) else h.bufferInit)
  }

  // ---------------------------------------------------------------- the turning disk

  /** Which sector of its track begins to pass under the head at a boundary. */
  predicate Over(k: int, sector: int) { k % SectorsPerTrack == sector % SectorsPerTrack }

  /** The next time a sector comes round, counted in sectors. */
  lemma NextRound(sector: int, k: int)
    ensures var d := ModuloDiff(sector, k);
            && 0 <= d < SectorsPerTrack && Over(k + d, sector) && forall j :: k <= j < k + d ==> !Over(j, sector)
  {
    var d := ModuloDiff(sector, k);
    forall j | k <= j < k + d ensures !Over(j, sector) { Apart(j, k + d); }
  }

  /** Two numbers less than a round apart do not come out on the same sector. */
  lemma Apart(j: int, i: int)
    requires j < i < j + SectorsPerTrack
    ensures j % SectorsPerTrack != i % SectorsPerTrack
  {
  }

  function Track(sector: int): int { sector / SectorsPerTrack }

  /** A seek takes a fixed time for each track between the two, whichever way; none exactly on the same track. */
  lemma SeekExact(h: Head, newSector: int)
    ensures var d := Track(newSector) - Track(h.lastSector);
            && Seek(h, newSector) == (if d < 0 then -d else d) * 500
            && Seek(h, newSector) == Seek(Head(newSector, h.bufferInit), h.lastSector)
            && (Seek(h, newSector) == 0 <==> Track(newSector) == Track(h.lastSector))
  {
  }

  /** A request leaves the head on its track: another one there needs no seek, and finds the buffer as it was. */
  lemma StaysOnTrack(h: Head, sector: int, now: int, next: int, later: int)
    requires Track(next) == Track(sector)
    ensures var g := UpdateLast(h, sector, now);
            && Seek(g, next) == 0 && UpdateLast(g, next, later) == Head(next, g.bufferInit)
            && g.bufferInit == if Track(sector) == Track(h.lastSector) then h.bufferInit else TimeAfter(h, sector, now)
  {
    SeekExact(h, sector);
    SeekExact(UpdateLast(h, sector, now), next);
  }

  lemma AtBoundary(h: Head, newSector: int, now: int)
    ensures var t, arrival := TimeAfter(h, newSector, now), now + Seek(h, newSector);
            && t % RotationTime == 0 && arrival <= t < arrival + RotationTime
  {
  }

  /** On the ordinary path the transfer starts at the earliest boundary after the seek at which the head is over the
      target sector, and takes one sector's time. */
  lemma OrdinaryIsEarliest(h: Head, newSector: int, now: int)
    ensures var start, arrival := now + Ordinary(h, newSector, now) - RotationTime, now + Seek(h, newSector);
            && start % RotationTime == 0 && arrival <= start && Over(start / RotationTime, newSector)
            && forall x :: arrival <= x < start && x % RotationTime == 0 ==> !Over(x / RotationTime, newSector)
  {
    var t, arrival := TimeAfter(h, newSector, now), now + Seek(h, newSector);
    var k := t / RotationTime;
    AtBoundary(h, newSector, now);
    NextRound(newSector, k);
    var d := ModuloDiff(newSector, k);
    var start := now + Ordinary(h, newSector, now) - RotationTime;
    assert start == (k + d) * RotationTime;
    forall x | arrival <= x < start && x % RotationTime == 0 ensures !Over(x / RotationTime, newSector) {
      BoundaryIndex(x, t, k, d);
      assert k <= x / RotationTime < k + d;
    }
  }

  lemma BoundaryIndex(x: int, t: int, k: int, d: int)
    requires x % RotationTime == 0 && t == k * RotationTime && t - RotationTime < x < (k + d) * RotationTime
    ensures k <= x / RotationTime < k + d
  {
  }

  // ---------------------------------------------------------------- the track buffer

  /** The sector has gone by completely, between the time the buffer began to fill and the boundary t. */
  ghost predicate Passed(h: Head, sector: int, t: int) {
    exists k :: h.bufferInit <= k * RotationTime && (k + 1) * RotationTime <= t && Over(k, sector)
  }

  /** A read on the current track is served from the buffer exactly when its sector has gone by since the buffer began
      to fill. */
  lemma BufferedExactly(h: Head, newSector: int, now: int)
    requires h.bufferInit % RotationTime == 0 && Seek(h, newSector) == 0
    ensures Buffered(h, newSector, false, now) <==> Passed(h, newSector, TimeAfter(h, newSector, now))
  {
    var t, b := TimeAfter(h, newSector, now), h.bufferInit / RotationTime;
    AtBoundary(h, newSector, now);
    NextRound(newSector, b);
    var d := ModuloDiff(newSector, b);
    if Buffered(h, newSector, false, now) {
      assert h.bufferInit <= (b + d) * RotationTime && (b + d + 1) * RotationTime <= t && Over(b + d, newSector);
    }
    if k :| h.bufferInit <= k * RotationTime && (k + 1) * RotationTime <= t && Over(k, newSector) {
      assert b <= k;
      assert b + d <= k;
      BoundaryGap(t, h.bufferInit, b, k, d);
    }
  }

  /** A read on the same track takes one sector's time if its sector has gone by, and every other request the ordinary
      time. */
  lemma LatencyExact(h: Head, newSector: int, writing: bool, now: int)
    requires h.bufferInit % RotationTime == 0
    ensures ComputeLatency(h, newSector, writing, now) ==
            if !writing && Track(newSector) == Track(h.lastSector) && Passed(h, newSector, TimeAfter(h, newSector, now)) then 500
            else Ordinary(h, newSector, now)
  {
    SeekExact(h, newSector);
    if Track(newSector) == Track(h.lastSector) { BufferedExactly(h, newSector, now); }
  }

  lemma BoundaryGap(t: int, init: int, b: int, k: int, d: int)
    requires init == b * RotationTime && b + d <= k && (k + 1) * RotationTime <= t
    ensures (t - init) / RotationTime > d
  {
  }

  /** The buffer never makes a request slower. */
  lemma BufferNeverSlower(h: Head, newSector: int, writing: bool, now: int)
    ensures RotationTime <= ComputeLatency(h, newSector, writing, now) <= Ordinary(h, newSector, now)
  {
    NextRound(newSector, TimeAfter(h, newSector, now) / RotationTime);
    SeekPositive(h, newSector);
  }

  lemma SeekPositive(h: Head, newSector: int)
    ensures 0 <= Seek(h, newSector)
  {
  }

  // ---------------------------------------------------------------- how long at most

  /** 31 tracks, nearly a sector to the boundary, 31 sectors round, and the transfer. */
  const LongestLatency: int := 31999

  lemma LatencyBound(h: Head, newSector: int, writing: bool, now: int)
    requires IsSector(newSector) && IsSector(h.lastSector)
    ensures 0 < ComputeLatency(h, newSector, writing, now) <= LongestLatency
  {
    BufferNeverSlower(h, newSector, writing, now);
    NextRound(newSector, TimeAfter(h, newSector, now) / RotationTime);
  }

  /** No smaller bound will do. */
  lemma LatencyBoundReached()
    ensures ComputeLatency(Head(0, 0), 1023, true, 1) == LongestLatency
  {
    var h := Head(0, 0);
    assert Seek(h, 1023) == 15500;
    assert Rotation(h, 1023, 1) == 499;
    assert TimeAfter(h, 1023, 1) / RotationTime == 32;
  }

  // ---------------------------------------------------------------- the device

  /** Requests one after the other: each is made when the one before is done. */
  datatype Job = Job(wait: nat, sector: int, writing: bool)

  /** The head and the time after the jobs, the first of them made wait ticks from now. */
  function After(h: Head, now: int, jobs: seq<Job>): (Head, int)
    decreases |jobs|
  {
    if jobs == [] then (h, now)
    else
      var j := jobs[0];
      var at := now + j.wait;
      After(UpdateLast(h, j.sector, at), at + ComputeLatency(h, j.sector, j.writing, at), jobs[1..])
  }

  /** The buffer began to fill at a sector boundary that is not in the future. */
  ghost predicate HeadOk(h: Head, now: int) {
    IsSector(h.lastSector) && h.bufferInit % RotationTime == 0 && 0 <= h.bufferInit <= now
  }

  lemma RequestOk(h: Head, sector: int, writing: bool, now: int)
    requires HeadOk(h, now) && IsSector(sector)
    ensures HeadOk(UpdateLast(h, sector, now), now + ComputeLatency(h, sector, writing, now))
  {
    AtBoundary(h, sector, now);
    NextRound(sector, TimeAfter(h, sector, now) / RotationTime);
    SeekPositive(h, sector);
  }

  lemma {:induction false} AlwaysAtBoundary(h: Head, now: int, jobs: seq<Job>)
    requires HeadOk(h, now) && forall i :: 0 <= i < |jobs| ==> IsSector(jobs[i].sector)
    ensures HeadOk(After(h, now, jobs).0, After(h, now, jobs).1)
    decreases |jobs|
  {
    if jobs != [] {
      var j := jobs[0];
      var at := now + j.wait;
      RequestOk(h, j.sector, j.writing, at);
      AlwaysAtBoundary(UpdateLast(h, j.sector, at), at + ComputeLatency(h, j.sector, j.writing, at), jobs[1..]);
    }
  }

  class Disk {
    var lastSector: int
    var bufferInit: int
    var active: bool
    var notified: int                          // calls of the kernel's handler

    ghost function State(): Head
      reads this
    {
      Head(lastSector, bufferInit)
    }

    constructor ()
      ensures State() == Head(0, 0) && !active && notified == 0 && HeadOk(State(), 0)
    {
      lastSector, bufferInit, active, notified := 0, 0, false, 0;
    }

    method TimeToSeek(newSector: int, now: int) returns (seek: int, rotation: int)
      ensures seek == Seek(State(), newSector) && rotation == Rotation(State(), newSector, now)
    {
      var newTrack, oldTrack := newSector / SectorsPerTrack, lastSector / SectorsPerTrack;
      seek := Distance(newTrack, oldTrack) * SeekTime;
      var over := (now + seek) % RotationTime;
      rotation := 0;
      if over > 0 { rotation := RotationTime - over; }
    }

    /** A request to an idle disk: the interrupt comes after the latency, and the head's record is brought up to date. */
    method Request(newSector: int, writing: bool, now: int) returns (ticks: int)
      requires !active && IsSector(newSector) && HeadOk(State(), now)
      modifies this
      ensures ticks == ComputeLatency(old(State()), newSector, writing, now) && active
      ensures State() == UpdateLast(old(State()), newSector, now) && HeadOk(State(), now + ticks) && notified == old(notified)
    {
      RequestOk(State(), newSector, writing, now);
      var seek, rotation := TimeToSeek(newSector, now);
      var timeAfter := now + seek + rotation;
      if !writing && seek == 0 && (timeAfter - bufferInit) / RotationTime > ModuloDiff(newSector, bufferInit / RotationTime) {
        ticks := RotationTime;
      } else {
        rotation := rotation + ModuloDiff(newSector, timeAfter / RotationTime) * RotationTime;
        ticks := seek + rotation + RotationTime;
      }
      active := true;
      if seek != 0 { bufferInit := timeAfter; }
      lastSector := newSector;
    }

    /** The request is done: the disk is idle before the kernel hears of it, once. */
    method HandleInterrupt()
      modifies this`active, this`notified
      ensures !active && notified == old(notified) + 1
    {
      active := false;
      notified := notified + 1;
    }
  }
}
