/** Placement of a virtual machine: a hypervisor is picked at random, weighted by its free memory. */
module Scheduler {
  import opened Options

  datatype Hypervisor = Hypervisor(name: string, ready: bool, capacityMB: Option<int>, usedMB: Option<int>)

  function AvailableMemory(h: Hypervisor): int {
    if h.capacityMB.None? then 0
    else if h.usedMB.Some? then h.capacityMB.value - h.usedMB.value
    else h.capacityMB.value
  }

  // ----- What the pick should be

  /** Hosts that are not Ready get a share only when no Ready host has memory free. */
  predicate OnlyReady(hs: seq<Hypervisor>) {
    exists i :: 0 <= i < |hs| && hs[i].ready && AvailableMemory(hs[i]) > 0
  }

  function Share(h: Hypervisor, onlyReady: bool): nat {
    if (onlyReady && !h.ready) || AvailableMemory(h) <= 0 then 0 else AvailableMemory(h)
  }

  function Below(hs: seq<Hypervisor>, onlyReady: bool, k: nat): nat
    requires k <= |hs|
  {
    if k == 0 then 0 else Below(hs, onlyReady, k - 1) + Share(hs[k - 1], onlyReady)
  }

  function Total(hs: seq<Hypervisor>): nat {
    Below(hs, OnlyReady(hs), |hs|)
  }

  /** Host i owns the picks from what lies below it up to its share. */
  predicate Owns(hs: seq<Hypervisor>, i: nat, pick: nat) {
    i < |hs| && Below(hs, OnlyReady(hs), i) <= pick < Below(hs, OnlyReady(hs), i + 1)
  }

  lemma {:induction false} BelowGrows(hs: seq<Hypervisor>, onlyReady: bool, j: nat, k: nat)
    requires j <= k <= |hs|
    ensures Below(hs, onlyReady, j) <= Below(hs, onlyReady, k)
    decreases k
  {
    if j < k { BelowGrows(hs, onlyReady, j, k - 1); }
  }

  lemma OneOwner(hs: seq<Hypervisor>, i: nat, j: nat, pick: nat)
    requires Owns(hs, i, pick) && Owns(hs, j, pick)
    ensures i == j
  {
    if i < j { BelowGrows(hs, OnlyReady(hs), i + 1, j); }
    if j < i { BelowGrows(hs, OnlyReady(hs), j + 1, i); }
  }

  predicate Between(lo: nat, hi: nat, p: nat) {
    lo <= p < hi
  }

  lemma {:induction false} Interval(lo: nat, hi: nat)
    requires lo <= hi
    ensures |set p: nat | p < hi && Between(lo, hi, p)| == hi - lo
    decreases hi - lo
  {
    var all := set p: nat | p < hi && Between(lo, hi, p);
    if lo == hi {
      assert all == {};
    } else {
      var last: nat := hi - 1;
      Interval(lo, last);
      assert all == (set p: nat | p < last && Between(lo, last, p)) + {last};
    }
  }

  // ----- The candidate list

  datatype Candidate = Candidate(host: nat, weight: nat)

  function Candidates(hs: seq<Hypervisor>, onlyReady: bool): (cs: seq<Candidate>)
    ensures forall j :: 0 <= j < |cs| ==> cs[j].host < |hs|
  {
    if hs == [] then []
    else
      var n := |hs| - 1;
      var before := Candidates(hs[..n], onlyReady);
      if Share(hs[n], onlyReady) > 0 then before + [Candidate(n, Share(hs[n], onlyReady))] else before
  }

  function SumOf(cs: seq<Candidate>): nat {
    if cs == [] then 0 else SumOf(cs[..|cs| - 1]) + cs[|cs| - 1].weight
  }

  lemma {:induction false} BelowPrefix(hs: seq<Hypervisor>, onlyReady: bool, n: nat, k: nat)
    requires k <= n <= |hs|
    ensures Below(hs[..n], onlyReady, k) == Below(hs, onlyReady, k)
    decreases k
  {
    if k > 0 { BelowPrefix(hs, onlyReady, n, k - 1); }
  }

  /** The list's sums are the sums over all hosts. */
  lemma {:induction false} ListSum(hs: seq<Hypervisor>, onlyReady: bool)
    ensures SumOf(Candidates(hs, onlyReady)) == Below(hs, onlyReady, |hs|)
    decreases |hs|
  {
    if hs != [] {
      var n := |hs| - 1;
      ListSum(hs[..n], onlyReady);
      BelowPrefix(hs, onlyReady, n, n);
      var before := Candidates(hs[..n], onlyReady);
      assert (before + [Candidate(n, Share(hs[n], onlyReady))])[..|before|] == before;
    }
  }

  /** Candidate j owns what its host owns. */
  predicate Placed(hs: seq<Hypervisor>, onlyReady: bool, cs: seq<Candidate>, j: nat)
    requires j < |cs|
  {
    && cs[j].host < |hs|
    && Below(hs, onlyReady, cs[j].host) == SumOf(cs[..j])
    && Below(hs, onlyReady, cs[j].host + 1) == SumOf(cs[..j + 1])
  }

  lemma PlacedInPrefix(hs: seq<Hypervisor>, onlyReady: bool, n: nat, before: seq<Candidate>, cs: seq<Candidate>, j: nat)
    requires n <= |hs| && j < |before| <= |cs| && cs[..|before|] == before && Placed(hs[..n], onlyReady, before, j)
    ensures Placed(hs, onlyReady, cs, j)
  {
    BelowPrefix(hs, onlyReady, n, before[j].host);
    BelowPrefix(hs, onlyReady, n, before[j].host + 1);
    assert cs[..j] == before[..j] && cs[..j + 1] == before[..j + 1] && cs[j] == before[j];
  }

  lemma {:induction false} PlaceInList(hs: seq<Hypervisor>, onlyReady: bool, j: nat)
    requires j < |Candidates(hs, onlyReady)|
    ensures Placed(hs, onlyReady, Candidates(hs, onlyReady), j)
    decreases |hs|
  {
    var n := |hs| - 1;
    var cs, before := Candidates(hs, onlyReady), Candidates(hs[..n], onlyReady);
    if j < |before| {
      PlaceInList(hs[..n], onlyReady, j);
      PlacedInPrefix(hs, onlyReady, n, before, cs, j);
    } else {
      ListSum(hs[..n], onlyReady);
      BelowPrefix(hs, onlyReady, n, n);
      assert cs[..j] == before && cs[..j + 1] == cs;
    }
  }

  lemma {:induction false} SumsArePositive(hs: seq<Hypervisor>, onlyReady: bool)
    requires Candidates(hs, onlyReady) != []
    ensures SumOf(Candidates(hs, onlyReady)) > 0
  {
    var n := |hs| - 1;
    var cs, before := Candidates(hs, onlyReady), Candidates(hs[..n], onlyReady);
    if Share(hs[n], onlyReady) == 0 {
      SumsArePositive(hs[..n], onlyReady);
    } else {
      assert cs[|cs| - 1].weight > 0;
    }
  }

  /** The first pass is empty exactly when no Ready host has memory free. */
  lemma {:induction false} NoneReady(hs: seq<Hypervisor>)
    ensures Candidates(hs, true) == [] <==> !OnlyReady(hs)
    decreases |hs|
  {
    if hs != [] {
      var n := |hs| - 1;
      NoneReady(hs[..n]);
      if OnlyReady(hs[..n]) {
        var i :| 0 <= i < n && hs[..n][i].ready && AvailableMemory(hs[..n][i]) > 0;
        assert hs[i].ready;
      }
      if OnlyReady(hs) {
        var i :| 0 <= i < |hs| && hs[i].ready && AvailableMemory(hs[i]) > 0;
        assert i < n ==> hs[..n][i] == hs[i];
      }
    }
  }

  method Collect(hs: seq<Hypervisor>, onlyReady: bool) returns (cs: seq<Candidate>)
    ensures cs == Candidates(hs, onlyReady)
  {
    cs := [];
    for i := 0 to |hs|
      invariant cs == Candidates(hs[..i], onlyReady)
    {
      assert hs[..i + 1][..i] == hs[..i];
      if onlyReady && !hs[i].ready {
        continue;
      }
      var avail := AvailableMemory(hs[i]);
      if avail > 0 {
        cs := cs + [Candidate(i, avail)];
      }
    }
    assert hs[..|hs|] == hs;
  }

  method TotalWeight(cs: seq<Candidate>) returns (total: nat)
    ensures total == SumOf(cs)
  {
    total := 0;
    for j := 0 to |cs|
      invariant total == SumOf(cs[..j])
    {
      assert cs[..j + 1][..j] == cs[..j];
      total := total + cs[j].weight;
    }
    assert cs[..|cs|] == cs;
  }

  method PickFrom(cs: seq<Candidate>, pick: nat) returns (j: nat)
    requires pick < SumOf(cs)
    ensures j < |cs| && SumOf(cs[..j]) <= pick < SumOf(cs[..j + 1])
  {
    assert cs[..|cs|] == cs;
    var cumulative := 0;
    for i := 0 to |cs|
      invariant cumulative == SumOf(cs[..i]) && cumulative <= pick
    {
      assert cs[..i + 1][..i] == cs[..i];
      cumulative := cumulative + cs[i].weight;
      if pick < cumulative {
        return i;
      }
    }
    // the fallback to the last candidate is never reached
    assert false;
  }

  /** `random(n)` stands for a uniform draw below n. */
  method SelectHypervisor(hs: seq<Hypervisor>, random: nat -> nat) returns (name: string, ghost host: nat)
    requires forall n :: n > 0 ==> random(n) < n
    ensures Total(hs) == 0 ==> name == ""
    ensures Total(hs) > 0 ==> Owns(hs, host, random(Total(hs))) && name == hs[host].name
  {
    host := 0;
    NoneReady(hs);
    var cs := Collect(hs, true);
    if |cs| == 0 {
      cs := Collect(hs, false);
    }
    ListSum(hs, OnlyReady(hs));
    if |cs| == 0 {
      return "", 0;
    }
    SumsArePositive(hs, OnlyReady(hs));
    var total := TotalWeight(cs);
    var j := PickFrom(cs, random(total));
    PlaceInList(hs, OnlyReady(hs), j);
    return hs[cs[j].host].name, cs[j].host;
  }

  /** Memory known to be free: capacity less use, where use is reported. */
  predicate FreeMemory(h: Hypervisor, mb: int) {
    mb == match h.capacityMB
          case None => 0
          case Some(total) => if h.usedMB.None? then total else total - h.usedMB.value
  }

  /** Of the draws below the total, each host owns as many as it has memory free; one that is not Ready only as a last resort. */
  lemma PicksEqualShare(hs: seq<Hypervisor>, i: nat, free: int)
    requires i < |hs| && FreeMemory(hs[i], free)
    ensures |set p: nat | p < Total(hs) && Owns(hs, i, p)| ==
            if free > 0 && (hs[i].ready || forall j, mb :: 0 <= j < |hs| && hs[j].ready && FreeMemory(hs[j], mb) ==> mb <= 0)
            then free else 0
  {
    var lo, hi := Below(hs, OnlyReady(hs), i), Below(hs, OnlyReady(hs), i + 1);
    BelowGrows(hs, OnlyReady(hs), i + 1, |hs|);
    assert (set p: nat | p < Total(hs) && Owns(hs, i, p)) == set p: nat | p < hi && Between(lo, hi, p);
    Interval(lo, hi);
    if OnlyReady(hs) {
      var j :| 0 <= j < |hs| && hs[j].ready && AvailableMemory(hs[j]) > 0;
      assert FreeMemory(hs[j], AvailableMemory(hs[j]));
    }
  }
}
