/**
 * Path selection: the algorithm named in a policy, a path picked by a
 * drawn index, and the path picked by the policy's partial-path
 * constraint. The candidate paths arrive as a sequence in iteration order.
 */
module PathSelection {
  import opened Wrappers
  import opened Net
  import opened Enums
  import opened Policies

  /** The algorithm a name selects; any unknown name selects the best possible path. */
  function AlgoOf(name: string): (a: PathSelectionAlgo)
    ensures a == ECMP <==> name == "ECMP"
    ensures a == RANDOM <==> name == "RANDOM"
    ensures a == ON_DEMAND <==> name == "ON_DEMAND"
    ensures a == BEST_POSSIBLE_PATH <==> name != "ECMP" && name != "RANDOM" && name != "ON_DEMAND"
  {
    match name
    case "ECMP" => ECMP
    case "RANDOM" => RANDOM
    case "BEST_POSSIBLE_PATH" => BEST_POSSIBLE_PATH
    case "ON_DEMAND" => ON_DEMAND
    case _ => BEST_POSSIBLE_PATH
  }

  function AlgoName(a: PathSelectionAlgo): string
  {
    match a
    case ECMP => "ECMP"
    case RANDOM => "RANDOM"
    case BEST_POSSIBLE_PATH => "BEST_POSSIBLE_PATH"
    case ON_DEMAND => "ON_DEMAND"
  }

  /** Every algorithm is selected by its own name. */
  lemma AlgoOfName(a: PathSelectionAlgo)
    ensures AlgoOf(AlgoName(a)) == a
  {
  }

  /** The connect points at either end of the links. */
  function Endpoints(links: seq<Link>): set<ConnectPoint>
    decreases |links|
  {
    if |links| == 0 then {}
    else Endpoints(links[..|links| - 1]) + {links[|links| - 1].src, links[|links| - 1].dst}
  }

  /** The connect points touched by any link of any of the paths. */
  function Covered(paths: seq<Path>): set<ConnectPoint>
    decreases |paths|
  {
    if |paths| == 0 then {}
    else Covered(paths[..|paths| - 1]) + Endpoints(paths[|paths| - 1].links)
  }

  /** The points of the paths are those of a prefix plus those of the rest. */
  lemma {:induction false} CoveredMonotone(paths: seq<Path>, i: nat)
    requires i <= |paths|
    ensures Covered(paths[..i]) <= Covered(paths)
    decreases |paths| - i
  {
    if i < |paths| {
      CoveredMonotone(paths, i + 1);
      assert paths[..i + 1][..i] == paths[..i];
    } else {
      assert paths[..i] == paths;
    }
  }

  /** The candidates up to and including index `j` together touch every point of `need`. */
  predicate CoversAt(paths: seq<Path>, need: set<ConnectPoint>, j: nat)
    requires j < |paths|
  {
    need <= Covered(paths[..j + 1])
  }

  /**
   * The index of the first candidate, from `i` on, by which the candidates
   * seen so far together touch every point of `need`; the last index when
   * that never happens.
   */
  function FirstCovering(paths: seq<Path>, need: set<ConnectPoint>, i: nat): (r: nat)
    requires i < |paths|
    ensures i <= r < |paths|
    ensures CoversAt(paths, need, r) || r == |paths| - 1
    ensures forall j :: i <= j < r ==> !CoversAt(paths, need, j)
    decreases |paths| - i
  {
    if i == |paths| - 1 || CoversAt(paths, need, i) then i
    else FirstCovering(paths, need, i + 1)
  }

  /** The path the partial-path constraint selects: nothing for no candidates, otherwise the first covering candidate, or the last one. */
  function EndToEndChoice(paths: seq<Path>, need: set<ConnectPoint>): (r: Option<Path>)
    ensures r.None? <==> |paths| == 0
    ensures r.Some? ==> r.value in paths
  {
    if |paths| == 0 then None else Some(paths[FirstCovering(paths, need, 0)])
  }

  /** With no partial-path points to cover, the first candidate is chosen. */
  lemma EmptyConstraintChoosesFirst(paths: seq<Path>)
    requires |paths| > 0
    ensures EndToEndChoice(paths, {}) == Some(paths[0])
  {
  }

  /** When all candidates together still miss a point of the partial path, the last candidate is chosen. */
  lemma UncoveredChoosesLast(paths: seq<Path>, need: set<ConnectPoint>)
    requires |paths| > 0 && !(need <= Covered(paths))
    ensures EndToEndChoice(paths, need) == Some(paths[|paths| - 1])
  {
    var r := FirstCovering(paths, need, 0);
    CoveredMonotone(paths, r + 1);
  }

  /**
   * Coverage is cumulative: the chosen candidate need not touch the partial
   * path's points on its own, even when a later candidate does.
   */
  lemma CoverageIsCumulative()
    ensures var a := ConnectPoint(DeviceId("of:1"), 1);
      var b := ConnectPoint(DeviceId("of:2"), 1);
      var c := ConnectPoint(DeviceId("of:3"), 1);
      var first := Path([Link(a, c)]);
      var second := Path([Link(b, c)]);
      var third := Path([Link(a, b)]);
      && EndToEndChoice([first, second, third], {a, b}) == Some(second)
      && !({a, b} <= Endpoints(second.links))
      && {a, b} <= Endpoints(third.links)
  {
    var a := ConnectPoint(DeviceId("of:1"), 1);
    var b := ConnectPoint(DeviceId("of:2"), 1);
    var c := ConnectPoint(DeviceId("of:3"), 1);
    var first := Path([Link(a, c)]);
    var second := Path([Link(b, c)]);
    var third := Path([Link(a, b)]);
    var paths := [first, second, third];
    assert Endpoints(first.links) == {a, c};
    assert Endpoints(second.links) == {b, c};
    assert paths[..1] == [first];
    assert paths[..2][..1] == [first];
    assert Covered(paths[..1]) == {a, c};
    assert Covered(paths[..2]) == {a, b, c};
    assert b !in Covered(paths[..1]);
  }

  class DefaultPathSelection {
    /** The algorithm last selected by name; `None` before any selection. */
    var pathSelectionAlgo: Option<PathSelectionAlgo>

    constructor()
      ensures pathSelectionAlgo.None?
    {
      pathSelectionAlgo := None;
    }

    /** Selects and records the algorithm a name denotes; a `null` name fails at the switch. */
    method GetPathSelectionAlgo(name: Option<string>) returns (r: Outcome<PathSelectionAlgo>)
      modifies this
      ensures name.None? ==> r == Threw(NullPointer) && pathSelectionAlgo == old(pathSelectionAlgo)
      ensures name.Some? ==> r == Returned(AlgoOf(name.value)) && pathSelectionAlgo == Some(AlgoOf(name.value))
    {
      if name.None? {
        return Threw(NullPointer);
      }
      pathSelectionAlgo := Some(AlgoOf(name.value));
      r := Returned(pathSelectionAlgo.value);
    }

    /**
     * The candidate at the drawn index `item`, walking the candidates in
     * order; nothing when there are no candidates. The draw is uniform over
     * the candidates, so the index is in range whenever there is one.
     */
    method PickRandomPath(paths: seq<Path>, item: int) returns (r: Option<Path>)
      requires |paths| > 0 ==> 0 <= item < |paths|
      ensures r.None? <==> |paths| == 0
      ensures r.Some? ==> r.value == paths[item] && r.value in paths
    {
      var index := if |paths| > 0 then item else 0;
      var selectedPath: Option<Path> := None;
      var i := 0;
      while i < |paths|
        invariant 0 <= i <= |paths| && i <= index
        invariant i == 0 ==> selectedPath.None?
        invariant i > 0 ==> selectedPath == Some(paths[i - 1])
      {
        selectedPath := Some(paths[i]);
        if i == index {
          return selectedPath;
        }
        i := i + 1;
      }
      r := selectedPath;
    }

    /**
     * Walks the candidates in order, adding each one's link endpoints to a
     * single set that is never cleared, and stops at the first candidate by
     * which that set holds every point of the policy's partial path; without
     * one, the last candidate. A `null` partial path fails at the first test.
     */
    method GetEndtoEndPath(paths: seq<Path>, policy: DefaultPolicy) returns (r: Outcome<Option<Path>>)
      ensures |paths| == 0 ==> r == Returned(None)
      ensures |paths| > 0 && policy.connectPointList.None? ==> r == Threw(NullPointer)
      ensures |paths| > 0 && policy.connectPointList.Some? ==>
        r == Returned(EndToEndChoice(paths, set c | c in policy.connectPointList.value))
    {
      var connectPointList := policy.connectPointList;
      ghost var need := if connectPointList.Some? then set c | c in connectPointList.value else {};
      var pathDeviceIdSet: set<ConnectPoint> := {};
      var selectedEndPath: Option<Path> := None;
      var i := 0;
      while i < |paths|
        invariant 0 <= i <= |paths|
        invariant pathDeviceIdSet == Covered(paths[..i])
        invariant i > 0 ==> selectedEndPath == Some(paths[i - 1])
        invariant i > 0 ==> connectPointList.Some?
        invariant i == 0 ==> selectedEndPath.None?
        invariant forall j :: 0 <= j < i ==> !CoversAt(paths, need, j)
      {
        selectedEndPath := Some(paths[i]);
        var links := paths[i].links;
        var k := 0;
        while k < |links|
          invariant 0 <= k <= |links|
          invariant pathDeviceIdSet == Covered(paths[..i]) + Endpoints(links[..k])
        {
          pathDeviceIdSet := pathDeviceIdSet + {links[k].src};
          pathDeviceIdSet := pathDeviceIdSet + {links[k].dst};
          assert links[..k + 1][..k] == links[..k];
          k := k + 1;
        }
        assert links[..k] == links;
        assert paths[..i + 1][..i] == paths[..i];
        if connectPointList.None? {
          return Threw(NullPointer);
        }
        var contained := forall c :: c in connectPointList.value ==> c in pathDeviceIdSet;
        if contained {
          assert CoversAt(paths, need, i);
          selectedEndPath := Some(paths[i]);
          return Returned(selectedEndPath);
        }
        i := i + 1;
      }
      r := Returned(selectedEndPath);
    }
  }
}
