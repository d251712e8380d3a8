/**
 * Presence detection of the server process.
 *
 * The operating system is an input: a `Snapshot` says whether process
 * enumeration succeeded, how many bytes of process ids it wrote into the
 * fixed id buffer, and what probing the id in each buffer slot yields
 * (opening the process and asking for its image file name).
 */
module ProcessScanner {

  /** Size in bytes of one process id (a 32-bit DWORD). */
  const PidSize: nat := 4

  /** Number of slots of the id buffer handed to process enumeration. */
  const MaxProcesses: nat := 1024

  /** Size in bytes of that buffer, which is the byte limit enumeration is given. */
  const BufferBytes: nat := MaxProcesses * PidSize

  /** What probing one enumerated process id yields. */
  datatype Probe =
    | OpenFailed          // no handle could be opened for the id
    | NameFailed          // a handle was opened but the image name query returned 0
    | Image(path: string) // the full image path of the process

  datatype Snapshot = Snapshot(enumOk: bool, bytesReturned: nat, probes: seq<Probe>)
  {
    /**
     * Enumeration never reports more bytes than the buffer holds, and there is
     * one probe per buffer slot.
     */
    predicate WellFormed()
    {
      bytesReturned <= BufferBytes && |probes| == MaxProcesses
    }
  }

  /** The number of process ids enumeration wrote, as the scan computes it. */
  function NumProcesses(bytesReturned: nat): (n: nat)
    requires bytesReturned <= BufferBytes
    ensures n <= MaxProcesses
    ensures n * PidSize <= bytesReturned < (n + 1) * PidSize
  {
    bytesReturned / PidSize
  }

  /** `needle` occurs in `hay` starting at position `k`. */
  predicate OccursAt(needle: string, hay: string, k: nat)
  {
    k + |needle| <= |hay| && hay[k..k + |needle|] == needle
  }

  /** Substring containment, character by character (so case-sensitive). */
  ghost predicate IsSubstring(needle: string, hay: string)
  {
    exists k: nat :: OccursAt(needle, hay, k)
  }

  /** The substring test the scan performs on each image path. */
  function Contains(hay: string, needle: string): bool
    decreases |hay|
  {
    if |needle| > |hay| then false
    else if hay[..|needle|] == needle then true
    else Contains(hay[1..], needle)
  }

  lemma {:induction false} ContainsIsSubstring(hay: string, needle: string)
    ensures Contains(hay, needle) <==> IsSubstring(needle, hay)
    decreases |hay|
  {
    if |needle| > |hay| {
    } else if hay[..|needle|] == needle {
      assert OccursAt(needle, hay, 0);
    } else {
      ContainsIsSubstring(hay[1..], needle);
      if IsSubstring(needle, hay) {
        var k: nat :| OccursAt(needle, hay, k);
        assert k != 0;
        assert hay[1..][k - 1..k - 1 + |needle|] == hay[k..k + |needle|];
        assert OccursAt(needle, hay[1..], k - 1);
      }
      if IsSubstring(needle, hay[1..]) {
        var k: nat :| OccursAt(needle, hay[1..], k);
        assert hay[1..][k..k + |needle|] == hay[k + 1..k + 1 + |needle|];
        assert OccursAt(needle, hay, k + 1);
      }
    }
  }

  /** The probe names a process whose image path contains `processName`. */
  predicate Matches(p: Probe, processName: string)
  {
    p.Image? && Contains(p.path, processName)
  }

  /**
   * The answer the scan must give: enumeration succeeded and one of the
   * enumerated slots names a matching process.
   */
  predicate ProcessRunning(processName: string, snap: Snapshot)
    requires snap.WellFormed()
  {
    snap.enumOk &&
    exists i | 0 <= i < NumProcesses(snap.bytesReturned) :: Matches(snap.probes[i], processName)
  }

  /**
   * Scans the enumerated slots in order and stops at the first image path
   * that contains `processName`; slots whose probe failed are skipped.
   */
  method IsProcessRunning(processName: string, snap: Snapshot) returns (running: bool)
    requires snap.WellFormed()
    ensures running == ProcessRunning(processName, snap)
    ensures !snap.enumOk ==> !running
    ensures running <==>
      snap.enumOk &&
      exists i :: 0 <= i < NumProcesses(snap.bytesReturned) &&
        snap.probes[i].Image? && IsSubstring(processName, snap.probes[i].path)
  {
    if !snap.enumOk {
      return false;
    }
    var numProcesses := snap.bytesReturned / PidSize;
    var i := 0;
    while i < numProcesses
      invariant i <= numProcesses == NumProcesses(snap.bytesReturned)
      invariant forall j :: 0 <= j < i ==> !Matches(snap.probes[j], processName)
    {
      var probe := snap.probes[i];
      if probe.Image? && Contains(probe.path, processName) {
        ContainsIsSubstring(probe.path, processName);
        return true;
      }
      i := i + 1;
    }
    forall j | 0 <= j < numProcesses && snap.probes[j].Image?
      ensures !IsSubstring(processName, snap.probes[j].path)
    {
      ContainsIsSubstring(snap.probes[j].path, processName);
    }
    return false;
  }

  /** Only the first `NumProcesses` slots are examined; the rest of the buffer never matters. */
  lemma SlotsBeyondCountIgnored(processName: string, s1: Snapshot, s2: Snapshot)
    requires s1.WellFormed() && s2.WellFormed()
    requires s1.enumOk == s2.enumOk && s1.bytesReturned == s2.bytesReturned
    requires s1.probes[..NumProcesses(s1.bytesReturned)] == s2.probes[..NumProcesses(s2.bytesReturned)]
    ensures ProcessRunning(processName, s1) == ProcessRunning(processName, s2)
  {
  }

  /**
   * A slot whose probe failed neither ends the scan nor decides it: the
   * answer is the same whichever way that probe failed, and is given by the
   * other enumerated slots.
   */
  lemma FailedProbeIsSkipped(processName: string, snap: Snapshot, j: nat, other: Probe)
    requires snap.WellFormed() && j < MaxProcesses
    requires !snap.probes[j].Image? && !other.Image?
    ensures ProcessRunning(processName, snap.(probes := snap.probes[j := other])) ==
            ProcessRunning(processName, snap)
    ensures ProcessRunning(processName, snap) <==>
      snap.enumOk &&
      exists i | 0 <= i < NumProcesses(snap.bytesReturned) && i != j :: Matches(snap.probes[i], processName)
  {
    var snap' := snap.(probes := snap.probes[j := other]);
    var n := NumProcesses(snap.bytesReturned);
    if ProcessRunning(processName, snap) {
      var i :| 0 <= i < n && Matches(snap.probes[i], processName);
      assert snap'.probes[i] == snap.probes[i];
    }
    if ProcessRunning(processName, snap') {
      var i :| 0 <= i < n && Matches(snap'.probes[i], processName);
      assert snap'.probes[i] == snap.probes[i];
    }
  }
}
