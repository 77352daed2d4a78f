/** A finished board: what a whole run promises about the nets it was given, and what is emitted for them. */
module RoutedBoard {
  import opened Basics
  import opened Grid
  import opened BridgeSearch
  import opened NetCopper
  import opened Autoroute
  import opened RoutedClearance
  import opened ExactClearance
  import Emission

  // ---- Clearance -----------------------------------------------------------------------------

  /** Nets `i` and `j` keep the rules their given widths demand. */
  ghost predicate KeepsRules(router: Router, given: seq<NetSpec>, i: nat, j: nat)
    requires i < |given| == |router.nets| && j < |given|
    reads router
  {
    var a, b, rules := router.nets[i], router.nets[j], RulesOf(router);
    && (rules.Roomy(given[i].widthMm, given[j].widthMm) ==>
          TracksApart(rules.grid, a, b, rules.Rule(given[i].widthMm, given[j].widthMm)))
    && ViasApart(rules.grid, a, b, 0.5 * (given[i].widthMm + router.viaSizeMm) + router.clearanceMm,
                 router.viaSizeMm + router.clearanceMm)
  }

  predicate RoutedPair(nets: seq<NetSpec>, i: int, j: int) {
    0 <= i < |nets| && 0 <= j < |nets| && i != j && nets[i].routed && nets[j].routed
  }

  /** Every net that counts as routed joins copper of its own: all islands it must join, or at least two. */
  ghost predicate KeepsCopper(given: NetSpec, net: NetSpec) {
    net.routed ==>
      && Connects(given.copper, given.startIsland, net.bridges)
      && (net.bridges == [] ==> given.requiredIslands <= 1)
      && (net.bridges != [] ==> |net.bridges| + 1 <= given.requiredIslands)
  }

  lemma RoutedKeepsCopper(router: Router, given: seq<NetSpec>, k: nat)
    requires router.Valid() && SameNets(given, router.nets) && k < |given|
    ensures KeepsCopper(given[k], router.nets[k])
  {
    hide Committed, Connects, BridgesLawful;
    assert router.NetOk(router.nets[k]) && SameNet(given[k], router.nets[k]);
  }

  lemma RoutedKeepsRules(router: Router, given: seq<NetSpec>, i: nat, j: nat)
    requires router.Valid() && SameNets(given, router.nets) && i < |given| && j < |given| && i != j
    requires router.nets[i].routed && router.nets[j].routed
    requires forall k :: 0 <= k < |router.nets| ==> !router.Disturbed(router.nets[k])
    ensures KeepsRules(router, given, i, j)
  {
    hide Router.Valid, Router.Disturbed, Rules.Roomy, Rules.Rule, TracksApart, ViasApart;
    assert SameNet(given[i], router.nets[i]) && SameNet(given[j], router.nets[j]);
    NoViolationsMeansClear(router, i, j);
    if RulesOf(router).Roomy(given[i].widthMm, given[j].widthMm) {
      RoomyKeepsRule(router, i, j);
    }
  }

  // ---- Later passes --------------------------------------------------------------------------

  /** Net `k` was bridged in this turn of the run, on the terrain that the nets before it in the order left, with
      the price of sharing and the history of that turn, and counts as routed exactly if that succeeded. */
  ghost predicate BridgedIn(router: Router, run: seq<Turn>, pass: nat, k: nat)
    requires router.gridMm > 0.0 && pass < |run|
  {
    var t := run[pass];
    exists i: nat ::
      && i < |t.order| && t.order[i] == k < |t.found| == |t.ended|
      && router.Outcome(t.found, t.ended, t.order, i, 1.0 + pass as real * 2.5, t.history)
  }

  /** What becomes of a net in a later turn: routed nets that share nothing stay as they are; any other is taken off
      the board and bridged anew. */
  ghost predicate Renewed(router: Router, run: seq<Turn>, pass: nat, k: nat)
    requires router.gridMm > 0.0 && pass < |run|
  {
    var t := run[pass];
    && k < |t.begun| == |t.found| == |t.ended|
    && if t.begun[k].routed && !Shares(t.begun, k) then t.found[k] == t.begun[k] && t.ended[k] == t.begun[k]
       else Blank(t.found[k]) && t.found[k].bridges == [] && BridgedIn(router, run, pass, k)
  }

  lemma ValidParameters(router: Router)
    requires router.Valid()
    ensures router.Parameters()
  {
  }

  lemma LaterTurn(router: Router, given: seq<NetSpec>, history: seq<real>, run: seq<Turn>, pass: nat, k: nat)
    requires router.Parameters() && router.gridMm > 0.0 && router.Run(given, history, run)
    requires 0 < pass < |run| && k < |run[pass].begun|
    ensures Renewed(router, run, pass, k)
  {
    hide Router.Outcome, Router.Surveyed, Router.NetOk, Router.Parameters, Router.Permutation, Shares, Blank, SameNet,
      Router.CrowdedAmong;
    var t := run[pass];
    assert router.TurnTaken(given, history, run, pass);
    assert router.PresentFactor(pass) == 1.0 + pass as real * 2.5;
    assert router.Permutation(t.order, |t.begun|);
    router.PermutationCovers(t.order, |t.begun|);
    if t.begun[k].routed {
      CrowdedIsShared(router, t.begun, k);
    }
    if router.TakenUp(t.begun, k) {
      assert k in t.order;
      var i: nat :| i < |t.order| && t.order[i] == k;
      assert router.Outcome(t.found, t.ended, t.order, i, 1.0 + pass as real * 2.5, t.history);
    }
  }

  /** The whole run on the nets given. A zero count means that all pairs of routed nets keep the rules their given
      widths demand: vias always, tracks unless the pair's widths leave room between both halos. A run that stops
      early ends with a zero count and every net routed. In every later pass the nets that were not routed or shared
      copper when it began are bridged anew, and all others stay. */
  method RouteBoard(router: Router, maxPasses: nat) returns (passesRun: nat, drc: nat, ghost run: seq<Turn>)
    requires router.Valid() && forall k :: 0 <= k < |router.nets| ==> !router.nets[k].routed
    modifies router`nets, router.historyCost, router.buf, router.buf.Arrays(), router.halo, router.viaHalo,
             router.newVia,
             router.halo.Arrays(), router.viaHalo.Arrays(), router.newVia.Arrays()
    ensures router.Valid() && SameNets(old(router.nets), router.nets)
    ensures passesRun < maxPasses ==> drc == 0 && forall k :: 0 <= k < |router.nets| ==> router.nets[k].routed
    ensures forall k :: 0 <= k < |router.nets| ==> KeepsCopper(old(router.nets)[k], router.nets[k])
    ensures drc == 0 ==>
              forall i, j :: RoutedPair(router.nets, i, j) ==> KeepsRules(router, old(router.nets), i, j)
    ensures router.gridMm > 0.0 && |run| == passesRun && router.Run(old(router.nets), old(router.historyCost[..]), run)
    ensures router.nets == if run == [] then old(router.nets) else run[|run| - 1].ended
    ensures forall p, k :: 0 < p < |run| && 0 <= k < |run[p].begun| ==> Renewed(router, run, p, k)
  {
    ValidParameters(router);
    hide Router.Valid, Router.Disturbed, Router.Run, KeepsRules, KeepsCopper, Router.Violations, SameNet, Renewed,
      Router.Parameters;
    ghost var given, history := router.nets, router.historyCost[..];
    passesRun, drc, run := router.RoutePasses(maxPasses);
    forall p, k | 0 < p < |run| && 0 <= k < |run[p].begun|
      ensures Renewed(router, run, p, k)
    {
      LaterTurn(router, given, history, run, p, k);
    }
    forall k | 0 <= k < |router.nets|
      ensures KeepsCopper(given[k], router.nets[k])
    {
      RoutedKeepsCopper(router, given, k);
    }
    if drc == 0 {
      forall i, j | RoutedPair(router.nets, i, j)
        ensures KeepsRules(router, given, i, j)
      {
        RoutedKeepsRules(router, given, i, j);
      }
    }
  }

  // ---- Emission ------------------------------------------------------------------------------

  function PathsOf(bridges: seq<Bridge>): (paths: seq<seq<Cell>>)
    ensures |paths| == |bridges| && forall b :: 0 <= b < |bridges| ==> paths[b] == bridges[b].cells
  {
    seq(|bridges|, b requires 0 <= b < |bridges| => bridges[b].cells)
  }

  /** Whatever the run did, the bridges of a routed net are paths of different cells. */
  lemma RoutedIsPath(router: Router, k: nat, b: nat)
    requires router.Valid() && k < |router.nets| && router.nets[k].routed && b < |router.nets[k].bridges|
    ensures Emission.Path(router.nets[k].bridges[b].cells) && Distinct(router.nets[k].bridges[b].cells)
  {
    hide Recorded, SitesInside, Connects, JoinedSome;
    var cells := router.nets[k].bridges[b].cells;
    assert router.NetOk(router.nets[k]);
    assert Stepwise(router.size, cells);
    assert Lawful(router.OwnerAt(), router.ViaOwnerAt(), router.nets[k].id, cells);
    hide Lawful, LawfulStep, Router.Valid;
    forall i | 0 <= i < |cells| - 1
      ensures Emission.IsStep(cells[i], cells[i + 1])
    {
      assert Step(cells[i], cells[i + 1]) && cells[i] != cells[i + 1];
    }
  }

  /** Emits a routed net of a finished board. */
  method EmitRouted(router: Router, k: nat) returns (tracks: seq<seq<Emission.Track>>, vias: seq<(int, int)>)
    requires router.Valid() && k < |router.nets| && router.nets[k].routed
    ensures |tracks| == |router.nets[k].bridges|
    ensures forall b :: 0 <= b < |tracks| ==>
              Emission.ExpandAll(tracks[b]) == Emission.PlanarSteps(router.nets[k].bridges[b].cells) &&
              Emission.Coalesced(tracks[b])
    ensures Distinct(vias)
    ensures forall p :: p in vias <==>
              exists b :: 0 <= b < |tracks| && Emission.ChangesAt(router.nets[k].bridges[b].cells, p.0, p.1)
  {
    hide Router.Valid, Emission.Path, Emission.ExpandAll, Emission.PlanarSteps, Emission.Coalesced,
      Emission.ChangesAt, Distinct;
    var paths := PathsOf(router.nets[k].bridges);
    forall b | 0 <= b < |paths|
      ensures Emission.Path(paths[b]) && Distinct(paths[b])
    {
      RoutedIsPath(router, k, b);
    }
    tracks, vias := Emission.EmitNet(paths);
  }
}
