/** The controller bookkeeping of `HW5MESITwoLevelCacheHierarchy.incorporate_cache`:
    how many controllers of each kind it creates for a board, and the
    network it hands them to. */
module CacheHierarchy {
  import opened Wrappers
  import opened Topology

  /** The controllers, known by the core, bank or port they were made for. */
  datatype Controller =
    | L1Cache(core: int)
    | L2Cache(bank: int)
    | Directory(memPort: int)
    | DmaController(dmaPort: int)

  /** What `incorporate_cache` asks of the board: its cores, its memory
      ports, and whether it has DMA ports and how many. */
  datatype Board = Board(numCores: nat, numMemPorts: nat, hasDmaPorts: bool, numDmaPorts: nat)

  /** The Ruby system as far as the controller lists, the sequencer count and
      the network go. */
  datatype RubySystem = RubySystem(
    l1Controllers: seq<Controller>,
    l2Controllers: seq<Controller>,
    directoryControllers: seq<Controller>,
    dmaControllers: seq<Controller>,
    numOfSequencers: nat,
    network: Network<Controller>)

  datatype IncorporateError =
    | NoDirectory                         // `_directory_controllers[0]` on an empty list
    | NetworkRejected(e: TopologyError)   // the assertion in `connectControllers`

  /** `_num_l2_banks`: one bank fewer than there are cores (-1 for no core). */
  function NumL2Banks(b: Board): int
  {
    b.numCores - 1
  }

  /** One L1 controller per core. */
  function L1Controllers(b: Board): seq<Controller>
  {
    seq(b.numCores, i => L1Cache(i))
  }

  /** One L2 controller per bank: `range(_num_l2_banks)` is empty when the
      count is -1. */
  function L2Controllers(b: Board): seq<Controller>
  {
    var n := NumL2Banks(b);
    seq(if n < 0 then 0 else n, i => L2Cache(i))
  }

  /** `incorporate_cache` from controller creation to `connectControllers`,
      with the network's class counters `ids` on entry. */
  method IncorporateCache(ids: IdCounters, board: Board, xbarLatency: int)
    returns (r: Result<(RubySystem, IdCounters), IncorporateError>)
    ensures board.numMemPorts == 0 ==> r == Err(NoDirectory)
    ensures board.numMemPorts > 0 && board.numCores == 0 ==> r == Err(NetworkRejected(ControllerCountMismatch))
    ensures r.Ok? <==> board.numMemPorts > 0 && board.numCores > 0
    ensures r.Ok? ==>
      var rs := r.value.0;
      && rs.l1Controllers == L1Controllers(board)
      && rs.l2Controllers == L2Controllers(board)
      && |rs.l1Controllers| == board.numCores
      && |rs.l2Controllers| == board.numCores - 1
      && |rs.directoryControllers| == board.numMemPorts
      && |rs.dmaControllers| == (if board.hasDmaPorts then board.numDmaPorts else 0)
      && rs.numOfSequencers == |rs.l1Controllers| + |rs.dmaControllers|
      && Wired(rs.network, ids, r.value.1, rs.l1Controllers, rs.l2Controllers,
               rs.directoryControllers[0], xbarLatency)
  {
    var l1 := L1Controllers(board);
    var l2 := L2Controllers(board);
    var dirs := seq(board.numMemPorts, i => Directory(i));
    var dmas := if board.hasDmaPorts then seq(board.numDmaPorts, i => DmaController(i)) else [];
    var numSequencers := |l1| + |dmas|;

    // The argument `_directory_controllers[0]` is evaluated before the call.
    if |dirs| == 0 {
      return Err(NoDirectory);
    }
    var connected := ConnectControllers(ids, l1, l2, dirs[0], xbarLatency);
    if connected.Err? {
      assert connected.error == ControllerCountMismatch;
      return Err(NetworkRejected(connected.error));
    }
    var (net, ids') := connected.value;
    r := Ok((RubySystem(l1, l2, dirs, dmas, numSequencers, net), ids'));
  }

  /** The controller-count assertion of `connectControllers`, applied to the
      L1 and L2 lists `incorporate_cache` builds, holds exactly for a board
      with at least one core. With no core there is no L1 and no L2 bank
      either, and 0 - 1 != 0. */
  lemma L2BanksMatchAssertion(board: Board)
    ensures |L1Controllers(board)| - 1 == |L2Controllers(board)| <==> board.numCores >= 1
  {
  }

  /** For a board with c >= 1 cores the network has 2c - 1 routers, 2c external
      links (one per L1 and L2 controller, plus the directory) and 4(c - 1)
      internal links. */
  lemma IncorporatedNetworkSize(ids: IdCounters, board: Board, xbarLatency: int,
                                rs: RubySystem, ids': IdCounters)
    requires board.numCores >= 1
    requires |rs.l1Controllers| == board.numCores && |rs.l2Controllers| == board.numCores - 1
    requires |rs.directoryControllers| > 0
    requires Wired(rs.network, ids, ids', rs.l1Controllers, rs.l2Controllers,
                   rs.directoryControllers[0], xbarLatency)
    ensures |rs.network.routers| == 2 * board.numCores - 1
    ensures |rs.network.extLinks| == |rs.l1Controllers| + |rs.l2Controllers| + 1
    ensures |rs.network.intLinks| == 4 * (board.numCores - 1)
    ensures ids'.router == ids.router + 2 * board.numCores - 1
  {
  }
}
