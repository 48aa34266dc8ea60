/** `L1L2ClusterTree`: the simple (non-garnet) tree network that pairs each
    L1 controller but the first with an L2 bank through two switches and
    hangs every L2 switch, the directory and the first L1 off one crossbar. */
module Topology {
  import opened Wrappers

  /** The three class-level counters of `L1L2ClusterTree`. They live for the
      whole process, so they are threaded through every call that draws IDs. */
  datatype IdCounters = IdCounters(intLink: nat, extLink: nat, router: nat)

  /** `_getIntLinkId`, `_getExtLinkId`, `_getRouterId`: each returns the
      counter's previous value and leaves it one higher. */
  function GetIntLinkId(c: IdCounters): (nat, IdCounters)
  {
    (c.intLink, c.(intLink := c.intLink + 1))
  }

  function GetExtLinkId(c: IdCounters): (nat, IdCounters)
  {
    (c.extLink, c.(extLink := c.extLink + 1))
  }

  function GetRouterId(c: IdCounters): (nat, IdCounters)
  {
    (c.router, c.(router := c.router + 1))
  }

  /** A `Switch`, known by its router ID. */
  datatype Router = Router(routerId: nat)

  /** The latency a `SimpleIntLink` is built with: the link's default, or the
      crossbar latency given to the network. */
  datatype LinkLatency = DefaultLatency | Cycles(n: int)

  /** `SimpleExtLink(link_id, ext_node, int_node)`: a controller attached to a switch. */
  datatype ExtLink<C> = ExtLink(linkId: nat, extNode: C, intNode: Router)

  /** `SimpleIntLink(link_id, src_node, dst_node[, latency])`: a one-way switch-to-switch link. */
  datatype IntLink = IntLink(linkId: nat, src: Router, dst: Router, latency: LinkLatency)

  /** The lists `connectControllers` assigns to the network at its end, and the crossbar. */
  datatype Network<C> = Network(xbar: Router, routers: seq<Router>, extLinks: seq<ExtLink<C>>, intLinks: seq<IntLink>)

  /** The `assert len(l1_ctrls) - 1 == len(l2_ctrls)` that guards the method. */
  datatype TopologyError = ControllerCountMismatch

  // ---------------------------------------------------------------------------
  // The wiring in closed form, by position. With counters `ids` on entry, the
  // crossbar takes the first router ID, and pair j (l1_ctrls[j+1], l2_ctrls[j])
  // takes the next two, L1 switch first.

  function Xbar(ids: IdCounters): Router
  {
    Router(ids.router)
  }

  function L1Switch(ids: IdCounters, j: nat): Router
  {
    Router(ids.router + 1 + 2 * j)
  }

  function L2Switch(ids: IdCounters, j: nat): Router
  {
    Router(ids.router + 2 + 2 * j)
  }

  /** External link k < 2n: even k attaches the L1 of pair k/2 to its switch,
      odd k the L2 of that pair to its switch. */
  function PairExtLink<C>(ids: IdCounters, l1: seq<C>, l2: seq<C>, k: nat): ExtLink<C>
    requires k / 2 + 1 < |l1| && k / 2 < |l2|
  {
    if k % 2 == 0 then ExtLink(ids.extLink + k, l1[k / 2 + 1], L1Switch(ids, k / 2))
    else ExtLink(ids.extLink + k, l2[k / 2], L2Switch(ids, k / 2))
  }

  /** Internal link k: pair k/4 contributes, in order, L1->L2 and L2->L1 with
      the default latency, then L2->crossbar and crossbar->L2 with the
      crossbar latency. */
  function PairIntLink(ids: IdCounters, xbarLatency: int, k: nat): IntLink
  {
    var j := k / 4;
    match k % 4
    case 0 => IntLink(ids.intLink + k, L1Switch(ids, j), L2Switch(ids, j), DefaultLatency)
    case 1 => IntLink(ids.intLink + k, L2Switch(ids, j), L1Switch(ids, j), DefaultLatency)
    case 2 => IntLink(ids.intLink + k, L2Switch(ids, j), Xbar(ids), Cycles(xbarLatency))
    case _ => IntLink(ids.intLink + k, Xbar(ids), L2Switch(ids, j), Cycles(xbarLatency))
  }

  /** `net` and the counters `ids'` are what `connectControllers` leaves when
      it starts with counters `ids` and n = |l2| pairs. */
  ghost predicate Wired<C>(net: Network<C>, ids: IdCounters, ids': IdCounters,
                           l1: seq<C>, l2: seq<C>, dir: C, xbarLatency: int)
  {
    var n := |l2|;
    && |l1| == n + 1
    && net.xbar == Xbar(ids)
    && |net.routers| == 1 + 2 * n
    && (forall k :: 0 <= k < |net.routers| ==> net.routers[k] == Router(ids.router + k))
    && |net.extLinks| == 2 * n + 2
    && (forall k :: 0 <= k < 2 * n ==> net.extLinks[k] == PairExtLink(ids, l1, l2, k))
    && net.extLinks[2 * n] == ExtLink(ids.extLink + 2 * n, dir, Xbar(ids))
    && net.extLinks[2 * n + 1] == ExtLink(ids.extLink + 2 * n + 1, l1[0], Xbar(ids))
    && |net.intLinks| == 4 * n
    && (forall k :: 0 <= k < 4 * n ==> net.intLinks[k] == PairIntLink(ids, xbarLatency, k))
    && ids' == IdCounters(ids.intLink + 4 * n, ids.extLink + 2 * n + 2, ids.router + 1 + 2 * n)
  }

  /** `connectControllers(l1_ctrls, l2_ctrls, dir_ctrl)` with the class
      counters `ids` on entry. Fails, drawing no ID, when the L1 list is not
      exactly one longer than the L2 list; otherwise returns the network and
      the counters on exit. */
  method ConnectControllers<C>(ids: IdCounters, l1: seq<C>, l2: seq<C>, dir: C, xbarLatency: int)
    returns (r: Result<(Network<C>, IdCounters), TopologyError>)
    ensures r.Err? <==> |l1| - 1 != |l2|
    ensures r.Ok? ==> Wired(r.value.0, ids, r.value.1, l1, l2, dir, xbarLatency)
  {
    if |l1| - 1 != |l2| {
      return Err(ControllerCountMismatch);
    }
    var n := |l2|;
    var c := ids;
    var routers: seq<Router> := [];
    var intLinks: seq<IntLink> := [];
    var extLinks: seq<ExtLink<C>> := [];

    var got := GetRouterId(c);
    c := got.1;
    var xbar := Router(got.0);
    routers := routers + [xbar];

    // zip(l1_ctrls[1:], l2_ctrls): pair i is (l1[i + 1], l2[i]).
    var i := 0;
    while i < n
      invariant 0 <= i <= n
      invariant c == IdCounters(ids.intLink + 4 * i, ids.extLink + 2 * i, ids.router + 1 + 2 * i)
      invariant |routers| == 1 + 2 * i
      invariant forall k :: 0 <= k < |routers| ==> routers[k] == Router(ids.router + k)
      invariant |extLinks| == 2 * i
      invariant forall k :: 0 <= k < 2 * i ==> extLinks[k] == PairExtLink(ids, l1, l2, k)
      invariant |intLinks| == 4 * i
      invariant forall k :: 0 <= k < 4 * i ==> intLinks[k] == PairIntLink(ids, xbarLatency, k)
    {
      var l1Ctrl, l2Ctrl := l1[i + 1], l2[i];

      got := GetRouterId(c);
      c := got.1;
      var l1Switch := Router(got.0);
      got := GetExtLinkId(c);
      c := got.1;
      var l1Ext := ExtLink(got.0, l1Ctrl, l1Switch);

      got := GetRouterId(c);
      c := got.1;
      var l2Switch := Router(got.0);
      got := GetExtLinkId(c);
      c := got.1;
      var l2Ext := ExtLink(got.0, l2Ctrl, l2Switch);

      got := GetIntLinkId(c);
      c := got.1;
      var up := IntLink(got.0, l1Switch, l2Switch, DefaultLatency);
      got := GetIntLinkId(c);
      c := got.1;
      var down := IntLink(got.0, l2Switch, l1Switch, DefaultLatency);
      got := GetIntLinkId(c);
      c := got.1;
      var toXbar := IntLink(got.0, l2Switch, xbar, Cycles(xbarLatency));
      got := GetIntLinkId(c);
      c := got.1;
      var fromXbar := IntLink(got.0, xbar, l2Switch, Cycles(xbarLatency));

      PairLinksAt(ids, l1, l2, xbarLatency, i);
      RoutersGrow(ids, routers, i, l1Switch, l2Switch);
      ExtLinksGrow(ids, l1, l2, extLinks, i, l1Ext, l2Ext);
      IntLinksGrow(ids, xbarLatency, intLinks, i, up, down, toXbar, fromXbar);
      routers := routers + [l1Switch, l2Switch];
      extLinks := extLinks + [l1Ext, l2Ext];
      intLinks := intLinks + [up, down, toXbar, fromXbar];
      i := i + 1;
    }

    got := GetExtLinkId(c);
    c := got.1;
    extLinks := extLinks + [ExtLink(got.0, dir, xbar)];

    // The first L1 is attached straight to the crossbar.
    got := GetExtLinkId(c);
    c := got.1;
    extLinks := extLinks + [ExtLink(got.0, l1[0], xbar)];

    r := Ok((Network(xbar, routers, extLinks, intLinks), c));
  }

  /** The links pair i adds, in the order the loop adds them. */
  lemma PairLinksAt<C>(ids: IdCounters, l1: seq<C>, l2: seq<C>, xbarLatency: int, i: nat)
    requires i + 1 < |l1| && i < |l2|
    ensures PairExtLink(ids, l1, l2, 2 * i) == ExtLink(ids.extLink + 2 * i, l1[i + 1], L1Switch(ids, i))
    ensures PairExtLink(ids, l1, l2, 2 * i + 1) == ExtLink(ids.extLink + 2 * i + 1, l2[i], L2Switch(ids, i))
    ensures PairIntLink(ids, xbarLatency, 4 * i)
            == IntLink(ids.intLink + 4 * i, L1Switch(ids, i), L2Switch(ids, i), DefaultLatency)
    ensures PairIntLink(ids, xbarLatency, 4 * i + 1)
            == IntLink(ids.intLink + 4 * i + 1, L2Switch(ids, i), L1Switch(ids, i), DefaultLatency)
    ensures PairIntLink(ids, xbarLatency, 4 * i + 2)
            == IntLink(ids.intLink + 4 * i + 2, L2Switch(ids, i), Xbar(ids), Cycles(xbarLatency))
    ensures PairIntLink(ids, xbarLatency, 4 * i + 3)
            == IntLink(ids.intLink + 4 * i + 3, Xbar(ids), L2Switch(ids, i), Cycles(xbarLatency))
  {
    assert (2 * i) / 2 == i && (2 * i) % 2 == 0;
    assert (2 * i + 1) / 2 == i && (2 * i + 1) % 2 == 1;
    assert (4 * i) / 4 == i && (4 * i) % 4 == 0;
    assert (4 * i + 1) / 4 == i && (4 * i + 1) % 4 == 1;
    assert (4 * i + 2) / 4 == i && (4 * i + 2) % 4 == 2;
    assert (4 * i + 3) / 4 == i && (4 * i + 3) % 4 == 3;
  }

  /** The routers of i pairs, extended by the two switches of pair i. */
  lemma RoutersGrow(ids: IdCounters, routers: seq<Router>, i: nat, a: Router, b: Router)
    requires |routers| == 1 + 2 * i
    requires forall k :: 0 <= k < |routers| ==> routers[k] == Router(ids.router + k)
    requires a == L1Switch(ids, i) && b == L2Switch(ids, i)
    ensures forall k :: 0 <= k < |routers + [a, b]| ==> (routers + [a, b])[k] == Router(ids.router + k)
  {
  }

  /** The external links of i pairs, extended by those of pair i. */
  lemma ExtLinksGrow<C>(ids: IdCounters, l1: seq<C>, l2: seq<C>, links: seq<ExtLink<C>>, i: nat,
                        a: ExtLink<C>, b: ExtLink<C>)
    requires i + 1 < |l1| && i < |l2|
    requires |links| == 2 * i
    requires forall k :: 0 <= k < 2 * i ==> links[k] == PairExtLink(ids, l1, l2, k)
    requires a == PairExtLink(ids, l1, l2, 2 * i) && b == PairExtLink(ids, l1, l2, 2 * i + 1)
    ensures forall k :: 0 <= k < 2 * (i + 1) ==> (links + [a, b])[k] == PairExtLink(ids, l1, l2, k)
  {
  }

  /** The internal links of i pairs, extended by the four of pair i. */
  lemma IntLinksGrow(ids: IdCounters, xbarLatency: int, links: seq<IntLink>, i: nat,
                     a: IntLink, b: IntLink, c: IntLink, d: IntLink)
    requires |links| == 4 * i
    requires forall k :: 0 <= k < 4 * i ==> links[k] == PairIntLink(ids, xbarLatency, k)
    requires a == PairIntLink(ids, xbarLatency, 4 * i) && b == PairIntLink(ids, xbarLatency, 4 * i + 1)
    requires c == PairIntLink(ids, xbarLatency, 4 * i + 2) && d == PairIntLink(ids, xbarLatency, 4 * i + 3)
    ensures forall k :: 0 <= k < 4 * (i + 1) ==> (links + [a, b, c, d])[k] == PairIntLink(ids, xbarLatency, k)
  {
  }

  // ---------------------------------------------------------------------------
  // Properties of every wired network.

  /** Pair i: l1_ctrls[i+1] sits on the L1 switch, l2_ctrls[i] on the L2
      switch, and the two switches are joined in both directions. */
  lemma WiredPairing<C>(net: Network<C>, ids: IdCounters, ids': IdCounters,
                        l1: seq<C>, l2: seq<C>, dir: C, xbarLatency: int, i: nat)
    requires Wired(net, ids, ids', l1, l2, dir, xbarLatency)
    requires i < |l2|
    ensures net.extLinks[2 * i].extNode == l1[i + 1] && net.extLinks[2 * i].intNode == net.routers[1 + 2 * i]
    ensures net.extLinks[2 * i + 1].extNode == l2[i] && net.extLinks[2 * i + 1].intNode == net.routers[2 + 2 * i]
    ensures net.intLinks[4 * i].src == net.routers[1 + 2 * i] && net.intLinks[4 * i].dst == net.routers[2 + 2 * i]
    ensures net.intLinks[4 * i + 1].src == net.routers[2 + 2 * i] && net.intLinks[4 * i + 1].dst == net.routers[1 + 2 * i]
    ensures net.intLinks[4 * i + 2].src == net.routers[2 + 2 * i] && net.intLinks[4 * i + 2].dst == net.xbar
    ensures net.intLinks[4 * i + 3].src == net.xbar && net.intLinks[4 * i + 3].dst == net.routers[2 + 2 * i]
  {
    PairLinksAt(ids, l1, l2, xbarLatency, i);
    assert net.extLinks[2 * i] == PairExtLink(ids, l1, l2, 2 * i);
    assert net.extLinks[2 * i + 1] == PairExtLink(ids, l1, l2, 2 * i + 1);
    assert net.intLinks[4 * i] == PairIntLink(ids, xbarLatency, 4 * i);
    assert net.intLinks[4 * i + 1] == PairIntLink(ids, xbarLatency, 4 * i + 1);
    assert net.intLinks[4 * i + 2] == PairIntLink(ids, xbarLatency, 4 * i + 2);
    assert net.intLinks[4 * i + 3] == PairIntLink(ids, xbarLatency, 4 * i + 3);
  }

  /** The crossbar is the first router, and the directory and the first L1
      are the last two external links, both on the crossbar. */
  lemma WiredCrossbar<C>(net: Network<C>, ids: IdCounters, ids': IdCounters,
                         l1: seq<C>, l2: seq<C>, dir: C, xbarLatency: int)
    requires Wired(net, ids, ids', l1, l2, dir, xbarLatency)
    ensures |net.routers| == 1 + 2 * |l2| && net.routers[0] == net.xbar
    ensures |net.extLinks| == 2 * |l2| + 2 && |net.intLinks| == 4 * |l2|
    ensures net.extLinks[|net.extLinks| - 2].extNode == dir && net.extLinks[|net.extLinks| - 2].intNode == net.xbar
    ensures net.extLinks[|net.extLinks| - 1].extNode == l1[0] && net.extLinks[|net.extLinks| - 1].intNode == net.xbar
    ensures forall k :: 0 <= k < |net.extLinks| - 2 ==> net.extLinks[k].intNode != net.xbar
  {
    forall k | 0 <= k < |net.extLinks| - 2
      ensures net.extLinks[k].intNode != net.xbar
    {
      assert net.extLinks[k] == PairExtLink(ids, l1, l2, k);
    }
  }

  /** Link k' runs the opposite way to link k, with the same latency. */
  predicate Reverses(links: seq<IntLink>, k: int, k': int)
    requires 0 <= k < |links| && 0 <= k' < |links|
  {
    links[k'].src == links[k].dst && links[k'].dst == links[k].src && links[k'].latency == links[k].latency
  }

  predicate HasReverse(links: seq<IntLink>, k: int)
    requires 0 <= k < |links|
  {
    exists k' :: 0 <= k' < |links| && Reverses(links, k, k')
  }

  /** Every internal link has a reverse link: same latency, ends swapped. */
  lemma WiredReverseLinks<C>(net: Network<C>, ids: IdCounters, ids': IdCounters,
                             l1: seq<C>, l2: seq<C>, dir: C, xbarLatency: int)
    requires Wired(net, ids, ids', l1, l2, dir, xbarLatency)
    ensures forall k :: 0 <= k < |net.intLinks| ==> HasReverse(net.intLinks, k)
  {
    forall k | 0 <= k < |net.intLinks|
      ensures HasReverse(net.intLinks, k)
    {
      var k' := PairIntLinkReverse(ids, xbarLatency, k);
      assert net.intLinks[k] == PairIntLink(ids, xbarLatency, k);
      assert net.intLinks[k'] == PairIntLink(ids, xbarLatency, k');
      assert Reverses(net.intLinks, k, k');
    }
  }

  /** Within a pair's four links, link k and its neighbour k xor 1 run
      opposite ways with the same latency. */
  lemma PairIntLinkReverse(ids: IdCounters, xbarLatency: int, k: nat) returns (k': nat)
    ensures k' / 4 == k / 4
    ensures PairIntLink(ids, xbarLatency, k').src == PairIntLink(ids, xbarLatency, k).dst
    ensures PairIntLink(ids, xbarLatency, k').dst == PairIntLink(ids, xbarLatency, k).src
    ensures PairIntLink(ids, xbarLatency, k').latency == PairIntLink(ids, xbarLatency, k).latency
  {
    var j, r := k / 4, k % 4;
    assert k == 4 * j + r;
    var r' := if r == 0 then 1 else if r == 1 then 0 else if r == 2 then 3 else 2;
    k' := 4 * j + r';
    assert k' / 4 == j && k' % 4 == r';
  }

  /** Exactly the links with the crossbar at one end carry the crossbar
      latency; every L1<->L2 link keeps the default. */
  lemma WiredXbarLatency<C>(net: Network<C>, ids: IdCounters, ids': IdCounters,
                            l1: seq<C>, l2: seq<C>, dir: C, xbarLatency: int)
    requires Wired(net, ids, ids', l1, l2, dir, xbarLatency)
    ensures forall k :: 0 <= k < |net.intLinks| ==>
      if net.intLinks[k].src == net.xbar || net.intLinks[k].dst == net.xbar
      then net.intLinks[k].latency == Cycles(xbarLatency)
      else net.intLinks[k].latency == DefaultLatency
  {
    forall k | 0 <= k < |net.intLinks|
      ensures if net.intLinks[k].src == net.xbar || net.intLinks[k].dst == net.xbar
              then net.intLinks[k].latency == Cycles(xbarLatency)
              else net.intLinks[k].latency == DefaultLatency
    {
      assert net.intLinks[k] == PairIntLink(ids, xbarLatency, k);
    }
  }

  /** IDs of each kind are handed out consecutively from the counter: strictly
      increasing along each list, hence pairwise distinct, and all below the
      counter left behind. */
  lemma WiredIdsIncreasing<C>(net: Network<C>, ids: IdCounters, ids': IdCounters,
                              l1: seq<C>, l2: seq<C>, dir: C, xbarLatency: int)
    requires Wired(net, ids, ids', l1, l2, dir, xbarLatency)
    ensures forall a, b :: 0 <= a < b < |net.routers| ==> net.routers[a].routerId < net.routers[b].routerId
    ensures forall a, b :: 0 <= a < b < |net.extLinks| ==> net.extLinks[a].linkId < net.extLinks[b].linkId
    ensures forall a, b :: 0 <= a < b < |net.intLinks| ==> net.intLinks[a].linkId < net.intLinks[b].linkId
    ensures forall a :: 0 <= a < |net.routers| ==> ids.router <= net.routers[a].routerId < ids'.router
    ensures forall a :: 0 <= a < |net.extLinks| ==> ids.extLink <= net.extLinks[a].linkId < ids'.extLink
    ensures forall a :: 0 <= a < |net.intLinks| ==> ids.intLink <= net.intLinks[a].linkId < ids'.intLink
  {
    var n := |l2|;
    forall a | 0 <= a < |net.extLinks|
      ensures net.extLinks[a].linkId == ids.extLink + a
    {
      if a < 2 * n {
        assert net.extLinks[a] == PairExtLink(ids, l1, l2, a);
      }
    }
    forall a | 0 <= a < |net.intLinks|
      ensures net.intLinks[a].linkId == ids.intLink + a
    {
      assert net.intLinks[a] == PairIntLink(ids, xbarLatency, a);
    }
  }

  /** Two networks built one after the other in the same process share no
      router ID, no external-link ID and no internal-link ID. */
  lemma SuccessiveNetworksDisjointIds<C>(
    net1: Network<C>, ids0: IdCounters, ids1: IdCounters, l1: seq<C>, l2: seq<C>, dir: C, lat: int,
    net2: Network<C>, ids2: IdCounters, m1: seq<C>, m2: seq<C>, dir2: C, lat2: int)
    requires Wired(net1, ids0, ids1, l1, l2, dir, lat)
    requires Wired(net2, ids1, ids2, m1, m2, dir2, lat2)
    ensures forall a, b :: 0 <= a < |net1.routers| && 0 <= b < |net2.routers| ==>
      net1.routers[a].routerId != net2.routers[b].routerId
    ensures forall a, b :: 0 <= a < |net1.extLinks| && 0 <= b < |net2.extLinks| ==>
      net1.extLinks[a].linkId != net2.extLinks[b].linkId
    ensures forall a, b :: 0 <= a < |net1.intLinks| && 0 <= b < |net2.intLinks| ==>
      net1.intLinks[a].linkId != net2.intLinks[b].linkId
  {
    WiredIdsIncreasing(net1, ids0, ids1, l1, l2, dir, lat);
    WiredIdsIncreasing(net2, ids1, ids2, m1, m2, dir2, lat2);
  }
}
