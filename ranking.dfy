/** The ranking step: reduce the suitable candidates to a decision. With
    several candidates a left fold keeps the one with the strictly lowest
    CPU usage, starting from a placeholder whose CPU is a large sentinel. */
module Ranking {
  import opened GPUInfoTypes
  import opened Candidates

  /** The CPU usage the fold's accumulator starts with. */
  const CpuSentinel: Int32 := 999999

  /** Go's zero value of a CandidateList record. */
  const ZeroCandidate := Candidate("", 0, false, 0, 0, "")

  /** The accumulator before the fold: "Unknown" names, sentinel CPU. */
  const Placeholder := ZeroCandidate.(
    hostName := "Unknown", nodeName := "Unknown",
    nodeMemoryUsage := 0, nodeCpuUsage := CpuSentinel, availAccTime := 0)

  /** The decision recorded when no candidate is suitable. */
  const NoneAvailable := GPUInfoStatus("None available", "None available", 0, 0, 0)

  /** The accumulator after taking over a candidate's five ranked fields
      (its GPU flag is not copied). */
  function Replace(w: Candidate, c: Candidate): (r: Candidate)
  {
    w.(hostName := c.hostName, nodeName := c.nodeName, nodeMemoryUsage := c.nodeMemoryUsage,
       nodeCpuUsage := c.nodeCpuUsage, availAccTime := c.availAccTime)
  }

  /** The fold over a prefix of the suitable candidates: a candidate replaces
      the accumulator only when its CPU usage is strictly lower. */
  function Winner(cs: seq<Candidate>): (w: Candidate)
  {
    if |cs| == 0 then Placeholder
    else
      var w, c := Winner(cs[..|cs| - 1]), cs[|cs| - 1];
      if c.nodeCpuUsage < w.nodeCpuUsage then Replace(w, c) else w
  }

  /** The status fields a candidate determines, its int32 and int fields
      widened to int64. */
  function StatusOf(c: Candidate): (s: GPUInfoStatus)
  {
    GPUInfoStatus(c.nodeName, c.hostName, c.nodeMemoryUsage, c.nodeCpuUsage, c.availAccTime)
  }

  /** The reference for the fold: the first position holding the minimum CPU. */
  function EarliestMinIndex(cs: seq<Candidate>): (i: nat)
    requires |cs| > 0
    ensures i < |cs|
    ensures forall j :: 0 <= j < |cs| ==> cs[i].nodeCpuUsage <= cs[j].nodeCpuUsage
    ensures forall j :: 0 <= j < i ==> cs[i].nodeCpuUsage < cs[j].nodeCpuUsage
  {
    if |cs| == 1 then 0
    else
      var k := EarliestMinIndex(cs[..|cs| - 1]);
      if cs[|cs| - 1].nodeCpuUsage < cs[k].nodeCpuUsage then |cs| - 1 else k
  }

  /** When no candidate is below the sentinel, the placeholder survives. */
  lemma {:induction false} WinnerKeepsPlaceholder(cs: seq<Candidate>)
    requires forall k :: 0 <= k < |cs| ==> cs[k].nodeCpuUsage >= CpuSentinel
    ensures Winner(cs) == Placeholder
  {
    if |cs| > 0 {
      WinnerKeepsPlaceholder(cs[..|cs| - 1]);
    }
  }

  /** When some candidate is below the sentinel, the fold ends on the earliest
      candidate with the minimum CPU usage: ties keep the first one. */
  lemma {:induction false} WinnerIsEarliestMin(cs: seq<Candidate>)
    requires exists k :: 0 <= k < |cs| && cs[k].nodeCpuUsage < CpuSentinel
    ensures StatusOf(Winner(cs)) == StatusOf(cs[EarliestMinIndex(cs)])
  {
    var n := |cs|;
    var init, last := cs[..n - 1], cs[n - 1];
    if exists k :: 0 <= k < |init| && init[k].nodeCpuUsage < CpuSentinel {
      WinnerIsEarliestMin(init);
      var i := EarliestMinIndex(init);
      assert init[i] == cs[i];
    } else {
      WinnerKeepsPlaceholder(init);
      assert last.nodeCpuUsage < CpuSentinel by {
        var k :| 0 <= k < n && cs[k].nodeCpuUsage < CpuSentinel;
        assert k == n - 1 || init[k] == cs[k];
      }
      if n > 1 {
        var i := EarliestMinIndex(init);
        assert init[i] == cs[i];
      }
    }
  }

  /** The ranking fold, updating the accumulator field by field. */
  method LeastCpuCandidate(bestCandidates: seq<Candidate>) returns (winnerCandidate: Candidate)
    ensures winnerCandidate == Winner(bestCandidates)
    ensures (exists k :: 0 <= k < |bestCandidates| && bestCandidates[k].nodeCpuUsage < CpuSentinel) ==>
      StatusOf(winnerCandidate) == StatusOf(bestCandidates[EarliestMinIndex(bestCandidates)])
    ensures (forall k :: 0 <= k < |bestCandidates| ==> bestCandidates[k].nodeCpuUsage >= CpuSentinel) ==>
      winnerCandidate == Placeholder
  {
    winnerCandidate := ZeroCandidate;
    winnerCandidate := winnerCandidate.(hostName := "Unknown");
    winnerCandidate := winnerCandidate.(nodeName := "Unknown");
    winnerCandidate := winnerCandidate.(nodeMemoryUsage := 0);
    winnerCandidate := winnerCandidate.(nodeCpuUsage := CpuSentinel);
    winnerCandidate := winnerCandidate.(availAccTime := 0);
    for i := 0 to |bestCandidates|
      invariant winnerCandidate == Winner(bestCandidates[..i])
    {
      var newentry := bestCandidates[i];
      assert bestCandidates[..i + 1][..i] == bestCandidates[..i];
      if newentry.nodeCpuUsage < winnerCandidate.nodeCpuUsage {
        winnerCandidate := winnerCandidate.(hostName := newentry.hostName);
        winnerCandidate := winnerCandidate.(nodeName := newentry.nodeName);
        winnerCandidate := winnerCandidate.(nodeMemoryUsage := newentry.nodeMemoryUsage);
        winnerCandidate := winnerCandidate.(nodeCpuUsage := newentry.nodeCpuUsage);
        winnerCandidate := winnerCandidate.(availAccTime := newentry.availAccTime);
      }
    }
    assert bestCandidates[..|bestCandidates|] == bestCandidates;
    if exists k :: 0 <= k < |bestCandidates| && bestCandidates[k].nodeCpuUsage < CpuSentinel {
      WinnerIsEarliestMin(bestCandidates);
    } else {
      WinnerKeepsPlaceholder(bestCandidates);
    }
  }

  /** The decision for the suitable candidates: none, exactly one, or many. */
  function Decision(best: seq<Candidate>): (d: GPUInfoStatus)
  {
    if |best| == 0 then NoneAvailable
    else if |best| == 1 then StatusOf(best[0])
    else StatusOf(Winner(best))
  }

  /** The decision in each of its cases, stated without the fold: the
      "no candidate" sentinel, the single candidate verbatim, the earliest
      minimum-CPU candidate, or the untouched placeholder when every
      candidate's CPU is at or above the sentinel. */
  lemma DecisionCases(best: seq<Candidate>)
    ensures |best| == 0 ==> Decision(best) == NoneAvailable
    ensures |best| == 1 ==> Decision(best) == StatusOf(best[0])
    ensures |best| >= 2 && (exists k :: 0 <= k < |best| && best[k].nodeCpuUsage < CpuSentinel) ==>
      Decision(best) == StatusOf(best[EarliestMinIndex(best)])
    ensures |best| >= 2 && (forall k :: 0 <= k < |best| ==> best[k].nodeCpuUsage >= CpuSentinel) ==>
      Decision(best) == GPUInfoStatus("Unknown", "Unknown", 0, 999999, 0)
  {
    if |best| >= 2 {
      if exists k :: 0 <= k < |best| && best[k].nodeCpuUsage < CpuSentinel {
        WinnerIsEarliestMin(best);
      } else {
        WinnerKeepsPlaceholder(best);
      }
    }
  }

  /** With several suitable candidates and some CPU below the sentinel, the
      decision's CPU is the least CPU of all of them. */
  lemma DecisionHasLeastCpu(best: seq<Candidate>)
    requires |best| >= 2
    requires exists k :: 0 <= k < |best| && best[k].nodeCpuUsage < CpuSentinel
    ensures exists k :: 0 <= k < |best| && Decision(best) == StatusOf(best[k])
    ensures forall k :: 0 <= k < |best| ==> Decision(best).NodeCPUUsage <= best[k].nodeCpuUsage
  {
    DecisionCases(best);
  }

  /** Worked example: three candidates, two tied at the least CPU; the
      decision is the first of the tied pair. */
  lemma TiedMinimumKeepsFirst()
    ensures
      var x := Candidate("hostX", 350, true, 0, 40, "nodeX");
      var y := Candidate("hostY", 350, true, 0, 40, "nodeY");
      var z := Candidate("hostZ", 350, true, 0, 55, "nodeZ");
      Decision([x, y, z]) == StatusOf(x)
  {
    var x := Candidate("hostX", 350, true, 0, 40, "nodeX");
    var y := Candidate("hostY", 350, true, 0, 40, "nodeY");
    var z := Candidate("hostZ", 350, true, 0, 55, "nodeZ");
    assert [x, y, z][..2] == [x, y];
    assert [x, y][..1] == [x];
    assert [x][..0] == [];
    assert Winner([x]) == Replace(Placeholder, x);
    assert Winner([x, y]) == Winner([x]);
  }
}
