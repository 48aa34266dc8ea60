/** The out-of-order processor of assignment 3: the core parameters it sets
    and the area score it reports for a configuration. */
module Processors {

  /** The four constructor arguments an `OutOfOrderCPU` keeps. */
  datatype OutOfOrderCpu = OutOfOrderCpu(width: int, robSize: int, numIntRegs: int, numFpRegs: int)

  /** The parameters `OutOfOrderCPUCore` sets on the underlying O3 core. */
  datatype CoreParams = CoreParams(
    fetchWidth: int, decodeWidth: int, renameWidth: int,
    issueWidth: int, wbWidth: int, commitWidth: int,
    numRobEntries: int, numPhysIntRegs: int, numPhysFloatRegs: int,
    lqEntries: int, sqEntries: int)

  /** Load and store queue entries are fixed, whatever the configuration. */
  const QueueEntries: int := 128

  /** Every pipeline stage is as wide as `width`. */
  predicate UniformWidth(c: CoreParams, width: int)
  {
    && c.fetchWidth == width && c.decodeWidth == width && c.renameWidth == width
    && c.issueWidth == width && c.wbWidth == width && c.commitWidth == width
  }

  /** The core an `OutOfOrderCPUCore(width, rob_size, num_int_regs, num_fp_regs)` configures. */
  function MakeCore(width: int, robSize: int, numIntRegs: int, numFpRegs: int): (c: CoreParams)
    ensures UniformWidth(c, width)
    ensures c.numRobEntries == robSize
    ensures c.numPhysIntRegs == numIntRegs && c.numPhysFloatRegs == numFpRegs
    ensures c.lqEntries == 128 && c.sqEntries == 128
  {
    CoreParams(width, width, width, width, width, width,
               robSize, numIntRegs, numFpRegs, QueueEntries, QueueEntries)
  }

  /** A single-core processor: its one core and the arguments kept for scoring. */
  datatype Processor = Processor(cores: seq<CoreParams>, config: OutOfOrderCpu)

  function MakeProcessor(width: int, robSize: int, numIntRegs: int, numFpRegs: int): (p: Processor)
    ensures |p.cores| == 1
    ensures p.config == OutOfOrderCpu(width, robSize, numIntRegs, numFpRegs)
    ensures UniformWidth(p.cores[0], p.config.width)
    ensures p.cores[0].numRobEntries == p.config.robSize
    ensures p.cores[0].numPhysIntRegs == p.config.numIntRegs
    ensures p.cores[0].numPhysFloatRegs == p.config.numFpRegs
  {
    Processor([MakeCore(width, robSize, numIntRegs, numFpRegs)],
              OutOfOrderCpu(width, robSize, numIntRegs, numFpRegs))
  }

  /** `get_area_score`, term by term as the source adds it up. */
  function AreaScore(cpu: OutOfOrderCpu): int
  {
    cpu.width * (2 * cpu.robSize + cpu.numIntRegs + cpu.numFpRegs)
    + 4 * cpu.width
    + 2 * cpu.robSize
    + cpu.numIntRegs
    + cpu.numFpRegs
  }

  /** The storage part of the score: two units per ROB entry, one per register. */
  function Storage(cpu: OutOfOrderCpu): int
  {
    2 * cpu.robSize + cpu.numIntRegs + cpu.numFpRegs
  }

  /** The score factors as (width + 1) * storage + 4 * width. */
  lemma AreaScoreFactored(cpu: OutOfOrderCpu)
    ensures AreaScore(cpu) == (cpu.width + 1) * Storage(cpu) + 4 * cpu.width
  {
  }

  predicate NonNegative(cpu: OutOfOrderCpu)
  {
    cpu.width >= 0 && cpu.robSize >= 0 && cpu.numIntRegs >= 0 && cpu.numFpRegs >= 0
  }

  /** Growing any one parameter (the others fixed, all non-negative) never lowers the score. */
  lemma AreaScoreMonotone(a: OutOfOrderCpu, b: OutOfOrderCpu)
    requires NonNegative(a) && NonNegative(b)
    requires a.width <= b.width && a.robSize <= b.robSize
    requires a.numIntRegs <= b.numIntRegs && a.numFpRegs <= b.numFpRegs
    ensures AreaScore(a) <= AreaScore(b)
  {
    AreaScoreFactored(a);
    AreaScoreFactored(b);
    assert Storage(a) <= Storage(b);
    MulMonotone(a.width + 1, Storage(a), b.width + 1, Storage(b));
  }

  lemma MulMonotone(x: int, y: int, x': int, y': int)
    requires 0 <= x <= x' && 0 <= y <= y'
    ensures x * y <= x' * y'
  {
    assert x * y <= x * y';
    assert x * y' <= x' * y';
  }

  /** The score is determined by the core the processor configures: the widths,
      ROB size and register counts stored in the core give the same score. */
  lemma AreaScoreFromCore(width: int, robSize: int, numIntRegs: int, numFpRegs: int)
    ensures var p := MakeProcessor(width, robSize, numIntRegs, numFpRegs);
            var c := p.cores[0];
            AreaScore(p.config)
            == c.issueWidth * (2 * c.numRobEntries + c.numPhysIntRegs + c.numPhysFloatRegs)
               + 4 * c.issueWidth + 2 * c.numRobEntries + c.numPhysIntRegs + c.numPhysFloatRegs
  {
  }

  /** The "little" configuration of the experiments (width 4, 32 ROB entries,
      64 integer and 64 floating-point registers). */
  lemma LittleScore()
    ensures AreaScore(MakeProcessor(4, 32, 64, 64).config) == 976
  {
  }

  /** The "big" configuration (width 12, 384 ROB entries, 512 and 512 registers). */
  lemma BigScore()
    ensures AreaScore(MakeProcessor(12, 384, 512, 512).config) == 23344
  {
  }
}
