/** The memory caps of the distribution scenario: enough for all layers but one on each
  of two nodes, and meant to be too little for the whole model on one. */
module Caps {
  import opened GgufFormat
  import opened Numbers

  const RESERVE: nat := 512 * 1024 * 1024
  const UBATCH: nat := 512
  const CTX: nat := 4096

  function AtLeastOne(n: nat): (m: nat)
    ensures 0 < m
  {
    if n == 0 then 1 else n
  }

  /** Mean weight of a layer, rounded up. */
  function MeanWeight(d: Dims): nat {
    (d.weightBytes + AtLeastOne(d.layers) - 1) / AtLeastOne(d.layers)
  }

  function Required(d: Dims, ctx: nat): nat {
    d.weightBytes + d.layers * d.kvRate * ctx
  }

  function LayerCost(d: Dims, ctx: nat): nat {
    MeanWeight(d) + d.kvRate * ctx
  }

  function CopyBytes(d: Dims): nat {
    16 * d.embd * UBATCH
  }

  function DistributeBudget(d: Dims): nat
    requires 0 < d.layers
  {
    (d.layers - 1) * LayerCost(d, CTX)
  }

  function DistributeCap(d: Dims): nat
    requires 0 < d.layers
  {
    RESERVE + CopyBytes(d) + DistributeBudget(d)
  }

  // ---- What the scheduler makes of a cap ----

  function Minus(a: nat, b: nat): nat {
    if a < b then 0 else a - b
  }

  /** Whole layers that fit a distributed participant's budget. */
  function LayerCapacity(d: Dims, usable: nat): nat {
    Minus(usable, RESERVE + CopyBytes(d)) / AtLeastOne(LayerCost(d, CTX))
  }

  predicate HoldsSolo(d: Dims, usable: nat) {
    Required(d, CTX) <= Minus(usable, RESERVE)
  }

  /** Under the cap a node holds exactly all layers but one; two nodes hold the model, and
      each holds the larger half. */
  lemma TwoNodesSuffice(d: Dims)
    requires 2 <= d.layers && 0 < LayerCost(d, CTX)
    ensures var capacity := LayerCapacity(d, DistributeCap(d));
            capacity == d.layers - 1 && d.layers <= 2 * capacity && (d.layers + 1) / 2 <= capacity
  {
    hide LayerCost, CopyBytes;
    var n, cost := d.layers - 1, LayerCost(d, CTX);
    Quotient(n * cost, cost, n, 0);
  }

  /** By how much the layers' mean weights together exceed the weights. */
  function Slack(d: Dims): int {
    d.layers * MeanWeight(d) - d.weightBytes
  }

  lemma SlackIsSmall(d: Dims)
    requires 0 < d.layers
    ensures 0 <= Slack(d) < d.layers
  {
    var m := d.weightBytes + d.layers - 1;
    assert m == m / d.layers * d.layers + m % d.layers;
  }

  /** One node falls short under the cap exactly if the copies and the rounding slack
      together are less than one layer costs. */
  lemma SoloFallsShortIff(d: Dims)
    requires 1 <= d.layers
    ensures !HoldsSolo(d, DistributeCap(d)) <==> CopyBytes(d) + Slack(d) < LayerCost(d, CTX)
  {
    hide MeanWeight, CopyBytes;
    var mean, kv := MeanWeight(d), d.kvRate * CTX;
    assert DistributeBudget(d) == d.layers * mean - mean + d.layers * kv - kv by {
      assert (d.layers - 1) * (mean + kv) == d.layers * mean - mean + d.layers * kv - kv;
    }
    assert d.layers * d.kvRate * CTX == d.layers * kv;
  }

  /** Copies under one layer's cost do not settle it: here they are under, and one node
      still holds the whole model. */
  lemma SmallCopiesCanStillFit()
    ensures var d := Dims(100001, 4, 100002, 1);
            CopyBytes(d) < LayerCost(d, CTX) && HoldsSolo(d, DistributeCap(d))
  {
  }

  /** The numbers of the smoke model: five layers of 234,240 bytes, 128 bytes of K and V
      for each token and layer. */
  lemma SmokeModelNumbers()
    ensures var d := Dims(5, 128, 1_171_200, 64);
            && LayerCost(d, 4096) == 758_528 && DistributeBudget(d) == 3_034_112
            && CopyBytes(d) == 524_288 && Required(d, 4096) == 3_792_640
            && DistributeCap(d) == 540_429_312
            && LayerCapacity(d, DistributeCap(d)) == 4 && !HoldsSolo(d, DistributeCap(d))
  {
    var d := Dims(5, 128, 1_171_200, 64);
    assert MeanWeight(d) == 234_240;
  }
}
