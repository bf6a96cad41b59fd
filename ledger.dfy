/**
 * The version ledger: the file `.build-versions.json` that holds the retained
 * versions, oldest first, and the retention rule applied to it each cycle.
 */
module Ledger {
  import opened Records

  /**
   * The ledger file.  `stored` is what reading and parsing it yields: `None`
   * when the file is missing or does not parse.  A write fails (and is
   * swallowed) when the file is not `writable`.
   */
  class LedgerFile {
    var stored: Option<seq<BuildVersion>>
    var writable: bool

    constructor (stored: Option<seq<BuildVersion>>, writable: bool)
      ensures this.stored == stored && this.writable == writable
    {
      this.stored := stored;
      this.writable := writable;
    }

    /** `readVersions`: the stored ledger, or an empty one when there is none to read. */
    function Load(): (versions: seq<BuildVersion>)
      reads this
      ensures stored.None? ==> versions == []
      ensures stored.Some? ==> versions == stored.value
    {
      match stored
      case None => []
      case Some(v) => v
    }

    /** `saveVersions`: overwrite the whole ledger; a failed write leaves the old file. */
    method Save(versions: seq<BuildVersion>)
      modifies this
      ensures writable == old(writable)
      ensures stored == if writable then Some(versions) else old(stored)
      ensures writable ==> Load() == versions
    {
      if writable {
        stored := Some(versions);
      }
    }
  }

  function Min(a: int, b: int): int {
    if a <= b then a else b
  }

  /** The newest `max` versions of a ledger, in ledger order. */
  function Retain(versions: seq<BuildVersion>, max: nat): (kept: seq<BuildVersion>)
    ensures |kept| == Min(|versions|, max)
    ensures versions == versions[..|versions| - |kept|] + kept
  {
    versions[|versions| - Min(|versions|, max)..]
  }

  /** Eviction never drops the newest version while at least one is retained. */
  lemma RetainKeepsNewest(versions: seq<BuildVersion>, max: nat)
    requires versions != [] && max >= 1
    ensures Retain(versions, max) != []
    ensures Retain(versions, max)[|Retain(versions, max)| - 1] == versions[|versions| - 1]
  {
  }

  /** Retaining twice is retaining once over the concatenation: the retained window only slides forward. */
  lemma RetainAppend(a: seq<BuildVersion>, b: seq<BuildVersion>, max: nat)
    ensures Retain(Retain(a, max) + b, max) == Retain(a + b, max)
  {
    var r := Retain(a, max);
    if |a| > max {
      var x := a[..|a| - max];
      assert a == x + r;
      assert a + b == x + (r + b);
      RetainIgnoresOlder(x, r + b, max);
    } else {
      assert r == a;
    }
  }

  /** Versions older than the last `max` do not affect what is retained. */
  lemma RetainIgnoresOlder(x: seq<BuildVersion>, c: seq<BuildVersion>, max: nat)
    requires |c| >= max
    ensures Retain(x + c, max) == Retain(c, max)
  {
    var k := |x| + |c| - max;
    forall i | 0 <= i < max
      ensures (x + c)[k..][i] == c[|c| - max..][i]
    {
      assert (x + c)[k + i] == c[|c| - max + i];
    }
  }

  /** The ledger after one build cycle: the new version appended, the oldest evicted. */
  function NextLedger(ledger: seq<BuildVersion>, version: BuildVersion, max: nat): seq<BuildVersion>
  {
    Retain(ledger + [version], max)
  }

  /** The ledger after one cycle per version in `produced`, starting from `ledger`. */
  function LedgerAfter(ledger: seq<BuildVersion>, produced: seq<BuildVersion>, max: nat): seq<BuildVersion>
    decreases |produced|
  {
    if produced == [] then ledger
    else LedgerAfter(NextLedger(ledger, produced[0], max), produced[1..], max)
  }

  /**
   * Any number of cycles from a ledger within the bound keep exactly the newest
   * `max` of all versions seen, oldest first: eviction is first in, first out by
   * ledger position, whatever the timestamps say.
   */
  lemma {:induction false} LedgerAfterCycles(ledger: seq<BuildVersion>, produced: seq<BuildVersion>, max: nat)
    requires |ledger| <= max
    ensures LedgerAfter(ledger, produced, max) == Retain(ledger + produced, max)
    decreases |produced|
  {
    if produced == [] {
      assert ledger + produced == ledger;
    } else {
      var next := NextLedger(ledger, produced[0], max);
      LedgerAfterCycles(next, produced[1..], max);
      RetainAppend(ledger + [produced[0]], produced[1..], max);
      assert ledger + [produced[0]] + produced[1..] == ledger + produced;
    }
  }

  /**
   * The same from a ledger that an earlier run with a larger bound left longer:
   * once one cycle has run, the ledger is again the newest `max` of everything.
   */
  lemma LedgerAfterCyclesFromLonger(ledger: seq<BuildVersion>, produced: seq<BuildVersion>, max: nat)
    requires produced != []
    ensures LedgerAfter(ledger, produced, max) == Retain(ledger + produced, max)
  {
    var kept := Retain(ledger, max);
    assert NextLedger(ledger, produced[0], max) == NextLedger(kept, produced[0], max) by {
      RetainAppend(ledger, [produced[0]], max);
    }
    assert LedgerAfter(ledger, produced, max) == LedgerAfter(kept, produced, max);
    assert LedgerAfter(kept, produced, max) == Retain(kept + produced, max) by {
      LedgerAfterCycles(kept, produced, max);
    }
    RetainAppend(ledger, produced, max);
  }

  /** The bound: starting from no ledger, after k cycles the ledger holds min(k, max) versions. */
  lemma LedgerLengthAfterCycles(produced: seq<BuildVersion>, max: nat)
    ensures |LedgerAfter([], produced, max)| == Min(|produced|, max)
    ensures LedgerAfter([], produced, max) == produced[|produced| - Min(|produced|, max)..]
  {
    LedgerAfterCycles([], produced, max);
    assert [] + produced == produced;
  }
}
