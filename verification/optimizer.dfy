/**
 * The optimizer set-up of the experiment driver (`Exp_Main._select_optimizer`):
 * one learning rate per parameter group, and the partition of the model's
 * named parameters into the groups "nn", "smoothing" and "damping" by the
 * suffix of each parameter's name.
 */
module Optimizer {
  import opened PySlice

  const SmoothingSuffix: string := "_smoothing_weight"
  const DampingSuffix: string := "_damping_factor"
  const WarmupMarker: string := "warmup"

  /** The three parameter groups handed to the optimizer. */
  datatype Group = Nn | Smoothing | Damping

  /** The order in which the groups are handed to the optimizer. */
  const GroupOrder: seq<Group> := [Nn, Smoothing, Damping]

  function GroupName(g: Group): string
  {
    match g
    case Nn => "nn"
    case Smoothing => "smoothing"
    case Damping => "damping"
  }

  // ---------------------------------------------------------------------
  // Learning rates
  // ---------------------------------------------------------------------

  /** The configuration fields the learning-rate choice reads. */
  datatype OptimizerArgs = OptimizerArgs(
    lradj: string,
    learningRate: real,
    minLr: real,
    smoothingLearningRate: real,
    dampingLearningRate: real)

  /** A configured rate is used when positive; otherwise a hundred times the base rate. */
  function FallbackRate(configured: real, learningRate: real): real
  {
    if configured > 0.0 then configured else 100.0 * learningRate
  }

  /** The rate given to group `g`. */
  function RateOf(args: OptimizerArgs, g: Group): real
  {
    match g
    case Nn => if Contains(args.lradj, WarmupMarker) then args.minLr else args.learningRate
    case Smoothing => FallbackRate(args.smoothingLearningRate, args.learningRate)
    case Damping => FallbackRate(args.dampingLearningRate, args.learningRate)
  }

  /**
   * The "nn" rate is the minimum rate exactly when "warmup" occurs somewhere
   * in the schedule name, and the base rate otherwise.
   */
  lemma NnRateFollowsWarmup(args: OptimizerArgs)
    ensures (exists i :: OccursAt(args.lradj, WarmupMarker, i)) ==> RateOf(args, Nn) == args.minLr
    ensures (forall i :: !OccursAt(args.lradj, WarmupMarker, i)) ==> RateOf(args, Nn) == args.learningRate
  {
    ContainsIffOccurs(args.lradj, WarmupMarker);
  }

  /**
   * The smoothing and damping rates are the configured ones when positive and
   * otherwise a hundred times the base rate; neither depends on the schedule
   * name, so a warmup schedule does not change their fallback.
   */
  lemma SmoothingAndDampingRates(args: OptimizerArgs, otherLradj: string)
    ensures args.smoothingLearningRate > 0.0 ==> RateOf(args, Smoothing) == args.smoothingLearningRate
    ensures args.smoothingLearningRate <= 0.0 ==> RateOf(args, Smoothing) == 100.0 * args.learningRate
    ensures args.dampingLearningRate > 0.0 ==> RateOf(args, Damping) == args.dampingLearningRate
    ensures args.dampingLearningRate <= 0.0 ==> RateOf(args, Damping) == 100.0 * args.learningRate
    ensures RateOf(args.(lradj := otherLradj), Smoothing) == RateOf(args, Smoothing)
    ensures RateOf(args.(lradj := otherLradj), Damping) == RateOf(args, Damping)
  {
  }

  /** With positive base and minimum rates, every group gets a positive rate. */
  lemma RatesArePositive(args: OptimizerArgs, g: Group)
    requires args.learningRate > 0.0 && args.minLr > 0.0
    ensures RateOf(args, g) > 0.0
  {
  }

  // ---------------------------------------------------------------------
  // Partition of the named parameters
  // ---------------------------------------------------------------------

  /** The group a parameter goes to: the smoothing test is tried first, then the damping test. */
  function Classify(name: string): Group
  {
    if SuffixSliceMatches(name, SmoothingSuffix) then Smoothing
    else if SuffixSliceMatches(name, DampingSuffix) then Damping
    else Nn
  }

  /** The classification, stated with "ends with". */
  lemma ClassifyBySuffix(name: string)
    ensures Classify(name) == Smoothing <==> EndsWith(name, SmoothingSuffix)
    ensures Classify(name) == Damping <==> !EndsWith(name, SmoothingSuffix) && EndsWith(name, DampingSuffix)
    ensures Classify(name) == Nn <==> !EndsWith(name, SmoothingSuffix) && !EndsWith(name, DampingSuffix)
  {
    SuffixSliceMatchesIffEndsWith(name, SmoothingSuffix);
    SuffixSliceMatchesIffEndsWith(name, DampingSuffix);
  }

  /**
   * No name ends with both suffixes (they end in different letters), so the
   * order of the two tests never decides a parameter's group.
   */
  lemma SuffixesNeverBothMatch(name: string)
    ensures !(EndsWith(name, SmoothingSuffix) && EndsWith(name, DampingSuffix))
  {
    if EndsWith(name, SmoothingSuffix) {
      assert name[|name| - 1] == SmoothingSuffix[|SmoothingSuffix| - 1] == 't';
      assert DampingSuffix[|DampingSuffix| - 1] == 'r';
    }
  }

  /** One entry of `named_parameters()`: a name and the parameter it names. */
  datatype NamedParam<P> = NamedParam(name: string, param: P)

  /** The parameters of `named`, in iteration order. */
  function AllParams<P>(named: seq<NamedParam<P>>): (ps: seq<P>)
    ensures |ps| == |named|
    ensures forall i :: 0 <= i < |named| ==> ps[i] == named[i].param
  {
    seq(|named|, i requires 0 <= i < |named| => named[i].param)
  }

  /** The group of each entry of `named`, in iteration order. */
  function Tags<P>(named: seq<NamedParam<P>>): (tags: seq<Group>)
    ensures |tags| == |named|
    ensures forall i :: 0 <= i < |named| ==> tags[i] == Classify(named[i].name)
  {
    seq(|named|, i requires 0 <= i < |named| => Classify(named[i].name))
  }

  /** The items whose tag is `g`, in their original order. */
  function Select<P>(items: seq<P>, tags: seq<Group>, g: Group): seq<P>
    requires |items| == |tags|
    decreases |items|
  {
    if items == [] then []
    else
      var n := |items|;
      Select(items[..n - 1], tags[..n - 1], g) + (if tags[n - 1] == g then [items[n - 1]] else [])
  }

  /** The positions whose tag is `g`, in ascending order. */
  function Positions(tags: seq<Group>, g: Group): seq<int>
    decreases |tags|
  {
    if tags == [] then []
    else
      var n := |tags|;
      Positions(tags[..n - 1], g) + (if tags[n - 1] == g then [n - 1] else [])
  }

  /** The parameters that go to group `g`, in iteration order. */
  function GroupMembers<P>(named: seq<NamedParam<P>>, g: Group): seq<P>
  {
    Select(AllParams(named), Tags(named), g)
  }

  /** The positions in `named` of the parameters that go to group `g`. */
  function GroupIndices<P>(named: seq<NamedParam<P>>, g: Group): seq<int>
  {
    Positions(Tags(named), g)
  }

  lemma {:induction false} PositionsAscending(tags: seq<Group>, g: Group)
    ensures forall j :: 0 <= j < |Positions(tags, g)| ==> 0 <= Positions(tags, g)[j] < |tags|
    ensures forall j, k :: 0 <= j < k < |Positions(tags, g)| ==> Positions(tags, g)[j] < Positions(tags, g)[k]
    decreases |tags|
  {
    if tags != [] {
      var n := |tags|;
      PositionsAscending(tags[..n - 1], g);
      var p', p := Positions(tags[..n - 1], g), Positions(tags, g);
      assert p == p' + (if tags[n - 1] == g then [n - 1] else []);
      forall j | 0 <= j < |p|
        ensures 0 <= p[j] < n
      {
        if j < |p'| {
          assert p[j] == p'[j];
        }
      }
      forall j, k | 0 <= j < k < |p|
        ensures p[j] < p[k]
      {
        assert p[j] == p'[j];
        if k < |p'| {
          assert p[k] == p'[k];
        } else {
          assert p[k] == n - 1;
        }
      }
    }
  }

  lemma {:induction false} PositionsExact(tags: seq<Group>, g: Group)
    ensures forall i :: 0 <= i < |tags| ==> (i in Positions(tags, g) <==> tags[i] == g)
    decreases |tags|
  {
    if tags != [] {
      var n := |tags|;
      var front := tags[..n - 1];
      PositionsExact(front, g);
      PositionsAscending(front, g);
      var p', p := Positions(front, g), Positions(tags, g);
      assert p == p' + (if tags[n - 1] == g then [n - 1] else []);
      assert forall x | x in p' :: x < n - 1;
      forall i | 0 <= i < n
        ensures i in p <==> tags[i] == g
      {
        if i < n - 1 {
          assert front[i] == tags[i];
        }
      }
    }
  }

  lemma {:induction false} SelectAtPositions<P>(items: seq<P>, tags: seq<Group>, g: Group)
    requires |items| == |tags|
    ensures |Select(items, tags, g)| == |Positions(tags, g)|
    ensures forall j :: 0 <= j < |Positions(tags, g)| ==>
      0 <= Positions(tags, g)[j] < |items| && Select(items, tags, g)[j] == items[Positions(tags, g)[j]]
    decreases |items|
  {
    PositionsAscending(tags, g);
    if items != [] {
      var n := |items|;
      SelectAtPositions(items[..n - 1], tags[..n - 1], g);
      PositionsAscending(tags[..n - 1], g);
    }
  }

  /**
   * The positions of group `g` are strictly ascending positions of `named`,
   * and a position is listed exactly when its name classifies as `g`: every
   * parameter lands in its own group, and in no other.
   */
  lemma GroupIndicesExact<P>(named: seq<NamedParam<P>>, g: Group)
    ensures forall j :: 0 <= j < |GroupIndices(named, g)| ==> 0 <= GroupIndices(named, g)[j] < |named|
    ensures forall j, k :: 0 <= j < k < |GroupIndices(named, g)| ==> GroupIndices(named, g)[j] < GroupIndices(named, g)[k]
    ensures forall i :: 0 <= i < |named| ==> (i in GroupIndices(named, g) <==> Classify(named[i].name) == g)
  {
    PositionsAscending(Tags(named), g);
    PositionsExact(Tags(named), g);
  }

  /**
   * Group `g` holds, position by position, the parameters at the positions
   * of group `g`: with GroupIndicesExact, the loop keeps the relative order
   * of `named_parameters()` within each group.
   */
  lemma GroupMembersAtIndices<P>(named: seq<NamedParam<P>>, g: Group)
    ensures |GroupMembers(named, g)| == |GroupIndices(named, g)|
    ensures forall j :: 0 <= j < |GroupIndices(named, g)| ==>
      0 <= GroupIndices(named, g)[j] < |named| && GroupMembers(named, g)[j] == named[GroupIndices(named, g)[j]].param
  {
    SelectAtPositions(AllParams(named), Tags(named), g);
  }

  lemma {:induction false} SelectSizesSum<P>(items: seq<P>, tags: seq<Group>)
    requires |items| == |tags|
    ensures |Select(items, tags, Nn)| + |Select(items, tags, Smoothing)| + |Select(items, tags, Damping)| == |items|
    decreases |items|
  {
    if items != [] {
      SelectSizesSum(items[..|items| - 1], tags[..|tags| - 1]);
    }
  }

  /** Adding one item to a group adds it to the multiset of the group. */
  lemma {:induction false} SelectStep<P>(items: seq<P>, tags: seq<Group>, g: Group)
    requires |items| == |tags| > 0
    ensures multiset(Select(items, tags, g)) ==
      multiset(Select(items[..|items| - 1], tags[..|tags| - 1], g))
      + (if tags[|tags| - 1] == g then multiset{items[|items| - 1]} else multiset{})
  {
    var n := |items|;
    var front := Select(items[..n - 1], tags[..n - 1], g);
    if tags[n - 1] == g {
      assert Select(items, tags, g) == front + [items[n - 1]];
    } else {
      assert Select(items, tags, g) == front;
    }
  }

  lemma {:induction false} SelectPartitions<P>(items: seq<P>, tags: seq<Group>)
    requires |items| == |tags|
    ensures multiset(Select(items, tags, Nn)) + multiset(Select(items, tags, Smoothing))
            + multiset(Select(items, tags, Damping)) == multiset(items)
    decreases |items|
  {
    if items != [] {
      var n := |items|;
      var front, tags' := items[..n - 1], tags[..n - 1];
      SelectPartitions(front, tags');
      SelectStep(items, tags, Nn);
      SelectStep(items, tags, Smoothing);
      SelectStep(items, tags, Damping);
      MultisetOfFrontAndLast(items);
      AddToOneGroup(
        multiset(Select(front, tags', Nn)), multiset(Select(front, tags', Smoothing)), multiset(Select(front, tags', Damping)),
        multiset(Select(items, tags, Nn)), multiset(Select(items, tags, Smoothing)), multiset(Select(items, tags, Damping)),
        multiset{items[n - 1]}, tags[n - 1]);
    }
  }

  lemma MultisetOfFrontAndLast<P>(items: seq<P>)
    requires items != []
    ensures multiset(items) == multiset(items[..|items| - 1]) + multiset{items[|items| - 1]}
  {
    assert items == items[..|items| - 1] + [items[|items| - 1]];
  }

  /** Adding `x` to the group `g` adds it once to the union of the three groups. */
  lemma AddToOneGroup<P>(nn: multiset<P>, sm: multiset<P>, dm: multiset<P>,
                         nn': multiset<P>, sm': multiset<P>, dm': multiset<P>, x: multiset<P>, g: Group)
    requires nn' == nn + (if g == Nn then x else multiset{})
    requires sm' == sm + (if g == Smoothing then x else multiset{})
    requires dm' == dm + (if g == Damping then x else multiset{})
    ensures nn' + sm' + dm' == nn + sm + dm + x
  {
  }

  /** The three group sizes add up to the number of named parameters. */
  lemma GroupSizesSum<P>(named: seq<NamedParam<P>>)
    ensures |GroupMembers(named, Nn)| + |GroupMembers(named, Smoothing)| + |GroupMembers(named, Damping)| == |named|
  {
    SelectSizesSum(AllParams(named), Tags(named));
  }

  /** Together the three groups hold every parameter exactly as often as `named` does. */
  lemma GroupsPartitionParams<P>(named: seq<NamedParam<P>>)
    ensures multiset(GroupMembers(named, Nn)) + multiset(GroupMembers(named, Smoothing))
            + multiset(GroupMembers(named, Damping)) == multiset(AllParams(named))
  {
    SelectPartitions(AllParams(named), Tags(named));
  }

  /**
   * The loop of `_select_optimizer`: walk the named parameters once and
   * append each to the list of its group.
   */
  method PartitionParameters<P>(named: seq<NamedParam<P>>)
    returns (nnParams: seq<P>, smoothingParams: seq<P>, dampingParams: seq<P>)
    ensures nnParams == GroupMembers(named, Nn)
    ensures smoothingParams == GroupMembers(named, Smoothing)
    ensures dampingParams == GroupMembers(named, Damping)
  {
    nnParams, smoothingParams, dampingParams := [], [], [];
    var i := 0;
    while i < |named|
      invariant 0 <= i <= |named|
      invariant nnParams == GroupMembers(named[..i], Nn)
      invariant smoothingParams == GroupMembers(named[..i], Smoothing)
      invariant dampingParams == GroupMembers(named[..i], Damping)
    {
      var k, v := named[i].name, named[i].param;
      assert AllParams(named[..i + 1])[..i] == AllParams(named[..i]);
      assert Tags(named[..i + 1])[..i] == Tags(named[..i]);
      if SuffixSliceMatches(k, SmoothingSuffix) {
        smoothingParams := smoothingParams + [v];
      } else if SuffixSliceMatches(k, DampingSuffix) {
        dampingParams := dampingParams + [v];
      } else {
        nnParams := nnParams + [v];
      }
      i := i + 1;
    }
    assert named[..i] == named;
  }

  /** One entry of the list given to the optimizer: parameters, rate and group name. */
  datatype ParamGroup<P> = ParamGroup(params: seq<P>, lr: real, name: string)

  /**
   * `_select_optimizer` up to the construction of the optimizer: the three
   * groups, in the order nn, smoothing, damping, each with its parameters and
   * its rate.
   */
  method SelectOptimizer<P>(args: OptimizerArgs, named: seq<NamedParam<P>>)
    returns (groups: seq<ParamGroup<P>>)
    ensures |groups| == |GroupOrder|
    ensures forall j :: 0 <= j < |groups| ==>
      && groups[j].name == GroupName(GroupOrder[j])
      && groups[j].lr == RateOf(args, GroupOrder[j])
      && groups[j].params == GroupMembers(named, GroupOrder[j])
  {
    var lr := if Contains(args.lradj, WarmupMarker) then args.minLr else args.learningRate;
    var smoothingLr := if args.smoothingLearningRate > 0.0 then args.smoothingLearningRate else 100.0 * args.learningRate;
    var dampingLr := if args.dampingLearningRate > 0.0 then args.dampingLearningRate else 100.0 * args.learningRate;
    var nnParams, smoothingParams, dampingParams := PartitionParameters(named);
    groups := [
      ParamGroup(nnParams, lr, "nn"),
      ParamGroup(smoothingParams, smoothingLr, "smoothing"),
      ParamGroup(dampingParams, dampingLr, "damping")
    ];
  }
}
