/**
 * The execution grid `runHelper` hands to the device: the problem domain
 * rounded up to a whole number of work groups, each group as large as the
 * device allows.
 */
module Grid {
  import opened Arith

  /** A launch configuration: the total number of work items and the work-group size. */
  datatype Range = Range(globalSize: nat, localSize: nat)

  /** The quotient of `n` by `g`, rounded up. */
  function CeilDiv(n: nat, g: nat): (q: nat)
    requires g > 0
    ensures q * g >= n
    ensures q == 0 || (q - 1) * g < n
  {
    var q := (n + g - 1) / g;
    assert n + g - 1 == q * g + (n + g - 1) % g;
    q
  }

  /**
   * The grid dispatched for `domain` independent output cells on a device whose
   * largest work group holds `maxGroupSize` items: the group size is the device
   * maximum, passed explicitly, and the total is the smallest multiple of it
   * that covers the domain.
   */
  function PlanGrid(domain: nat, maxGroupSize: nat): (r: Range)
    requires maxGroupSize > 0
    ensures r.localSize == maxGroupSize
    ensures r.globalSize % r.localSize == 0
    ensures domain <= r.globalSize < domain + maxGroupSize
  {
    var q := CeilDiv(domain, maxGroupSize);
    MultipleMod(q, maxGroupSize);
    Range(q * maxGroupSize, maxGroupSize)
  }

  lemma MultipleMod(q: nat, g: nat)
    requires g > 0
    ensures (q * g) % g == 0
  {
    DivModUnique(q * g, g, q, 0);
  }

  /** No smaller grid of whole groups covers the domain. */
  lemma PlanGridIsSmallestCover(domain: nat, maxGroupSize: nat, m: nat)
    requires maxGroupSize > 0
    requires m % maxGroupSize == 0 && m >= domain
    ensures PlanGrid(domain, maxGroupSize).globalSize <= m
  {
    var g := maxGroupSize;
    var q, p := CeilDiv(domain, g), m / g;
    assert m == p * g + m % g;
    assert PlanGrid(domain, g).globalSize == q * g;
    assert q * g < (p + 1) * g;
    MulMono(p + 1, q, g);
    MulMono(q, p, g);
  }

  /** A 4×3 by 3×2 product on a device with groups of 4: its 8 result cells fill two groups exactly. */
  lemma PlanGridExample()
    ensures PlanGrid(4 * 2, 4) == Range(8, 4)
  {
  }
}
